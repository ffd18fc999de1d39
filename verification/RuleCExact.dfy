/** A walk over what is left to do decides safety exactly. */
module RuleCExact {
  import opened PythonAst
  import opened RuleCRuns

  ghost function Size(s: Stmt): (n: nat)
    ensures n > 0
    decreases s, 0
  {
    match s
    case If(_, body, orelse) => 2 + BlockSize(body) + BlockSize(orelse)
    case Loop(_, _, body, orelse) => 6 + BlockSize(body) + BlockSize(orelse)
    case With(_, body) => 3 + BlockSize(body)
    case Try(body, handlers, orelse, finalbody) =>
      8 + BlockSize(body) + ArmsSize(handlers) + BlockSize(orelse) + BlockSize(finalbody)
    case Match(_, cases) => 2 + ArmsSize(cases)
    case _ => 1
  }

  ghost function BlockSize(ss: seq<Stmt>): nat
    decreases ss, 1
  {
    if ss == [] then 0 else Size(ss[0]) + BlockSize(ss[1..])
  }

  ghost function ArmsSize(arms: seq<Arm>): nat
    decreases arms, 0
  {
    if arms == [] then 0 else 1 + BlockSize(arms[0].body) + ArmsSize(arms[1..])
  }

  /** A loop weighs its body only while it may still be entered. */
  ghost function Weight(k: Cont): nat {
    match k
    case Done => 0
    case Then(block, n) => 1 + BlockSize(block) + Weight(n)
    case Head(loop, marked, n) =>
      2 + (if marked then 0 else 2 + BlockSize(loop.body)) + BlockSize(loop.orelse) + Weight(n)
    case Exit(_, n) => 1 + Weight(n)
    case Catch(handlers, orelse, n) => 2 + ArmsSize(handlers) + BlockSize(orelse) + Weight(n)
    case Finally(block, n) => 3 + BlockSize(block) + Weight(n)
    case Resume(_, n) => 1 + Weight(n)
  }

  /** Nothing that can run from Run(k), up to the first use of db, uses it other than by a reset.
      Found by a walk that enters every branch once and every loop for one turn. */
  ghost predicate Clean(k: Cont, e: Env)
    decreases Weight(k), 2
  {
    match k
    case Done => true
    case Then(block, n) => if block == [] then Clean(n, e) else CleanStart(block[0], Then(block[1..], n), e)
    case Head(loop, marked, n) =>
      && !ExprsUseDb(loop.each)
      && Clean(Then(loop.orelse, n), e)
      && (e.faults ==> CleanJump(Raised, n, e))
      && (!marked ==>
            var again := Head(loop, true, n);
            assert Weight(again) == 2 + BlockSize(loop.orelse) + Weight(n);
            Clean(Then(loop.body, again), e))
    case Exit(usesDb, n) => !usesDb && Clean(n, e)
    case Catch(_, orelse, n) => Clean(Then(orelse, n), e)
    case Finally(block, n) => Clean(Then(block, n), e)
    case Resume(j, n) => CleanJump(j, n, e)
  }

  ghost predicate CleanStart(s: Stmt, k: Cont, e: Env)
    decreases Size(s) + Weight(k), 1
  {
    if OwnUse(s) then IsReset(s, e.names)
    else
      match s
      case Break => CleanJump(Broke, k, e)
      case Continue => CleanJump(Continued, k, e)
      case Return(_) => CleanJump(Returned, k, e) && (e.faults ==> CleanJump(Raised, k, e))
      case Raise(_) => CleanJump(Raised, k, e)
      case _ => CleanInside(s, k, e) && (e.faults ==> CleanJump(Raised, k, e))
  }

  /** All ways into the statement are clean. */
  ghost predicate CleanInside(s: Stmt, k: Cont, e: Env)
    decreases Size(s) + Weight(k), 0
  {
    match s
    case If(_, body, orelse) => Clean(Then(body, k), e) && Clean(Then(orelse, k), e)
    case Loop(_, _, _, _) => Clean(Head(s, false, k), e)
    case With(items, body) =>
      var inside := Exit(ExprsUseDb(items), k);
      assert Weight(inside) == 1 + Weight(k);
      Clean(Then(body, inside), e)
    case Try(body, handlers, orelse, finalbody) =>
      var fin := Finally(finalbody, k);
      var inside := Catch(handlers, orelse, fin);
      assert Weight(inside) == 2 + ArmsSize(handlers) + BlockSize(orelse) + Weight(fin);
      Clean(Then(body, inside), e)
    case Match(_, cases) => Clean(k, e) && CleanArms(cases, k, e)
    case _ => Clean(k, e)
  }

  ghost predicate CleanArms(arms: seq<Arm>, k: Cont, e: Env)
    decreases 1 + ArmsSize(arms) + Weight(k), 0
  {
    arms == [] || (Clean(Then(arms[0].body, k), e) && CleanArms(arms[1..], k, e))
  }

  ghost predicate CleanJump(j: Jump, k: Cont, e: Env)
    decreases Weight(k), 3
  {
    match k
    case Done => true
    case Then(_, n) => CleanJump(j, n, e)
    case Head(_, _, n) =>
      if j == Broke then Clean(n, e) else if j == Continued then Clean(k, e) else CleanJump(j, n, e)
    case Exit(usesDb, n) => !usesDb && CleanJump(j, n, e)
    case Catch(handlers, _, n) =>
      CleanJump(j, n, e) && (j == Raised ==> !ArmExprsUseDb(handlers) && CleanArms(handlers, n, e))
    case Finally(block, n) =>
      assert Weight(Resume(j, n)) == 1 + Weight(n);
      Clean(Then(block, Resume(j, n)), e)
    case Resume(_, n) => CleanJump(j, n, e)
  }

  ghost predicate CleanAfter(o: Outcome, k: Cont, e: Env) {
    if o.Normal? then Clean(k, e) else CleanJump(o, k, e)
  }

  ghost predicate CleanConfig(c: Config, e: Env) {
    match c
    case Run(k) => Clean(k, e)
    case Unwind(j, k) => CleanJump(j, k, e)
  }

  // ----- removing marks -----

  /** `b` is `a` with some loops unmarked, if `strict` only loops it is clean to stand before. */
  ghost predicate Unmarked(a: Cont, b: Cont, e: Env, strict: bool) {
    match a
    case Done => b.Done?
    case Then(block, n) => b.Then? && b.block == block && Unmarked(n, b.next, e, strict)
    case Head(loop, marked, n) =>
      && b.Head? && b.loop == loop && Unmarked(n, b.next, e, strict)
      && (b.marked == marked || (marked && (strict ==> Clean(b, e))))
    case Exit(usesDb, n) => b.Exit? && b.usesDb == usesDb && Unmarked(n, b.next, e, strict)
    case Catch(handlers, orelse, n) =>
      b.Catch? && b.handlers == handlers && b.orelse == orelse && Unmarked(n, b.next, e, strict)
    case Finally(block, n) => b.Finally? && b.block == block && Unmarked(n, b.next, e, strict)
    case Resume(j, n) => b.Resume? && b.jump == j && Unmarked(n, b.next, e, strict)
  }

  lemma {:induction false} UnmarkedSelf(k: Cont, e: Env, strict: bool)
    ensures Unmarked(k, k, e, strict)
  {
    if k != Done {
      UnmarkedSelf(k.next, e, strict);
    }
  }

  lemma Lift(frame: Cont, a: Cont, b: Cont, e: Env, strict: bool)
    requires frame != Done && Unmarked(a, b, e, strict)
    ensures Unmarked(frame.(next := a), frame.(next := b), e, strict)
  {
  }

  lemma {:induction false} UnmarkedClean(a: Cont, b: Cont, e: Env)
    requires Unmarked(a, b, e, true) && Clean(a, e)
    ensures Clean(b, e)
    decreases Weight(a), 2
  {
    match a
    case Done =>
    case Then(block, n) =>
      if block == [] {
        UnmarkedClean(n, b.next, e);
      } else {
        UnmarkedStart(block[0], Then(block[1..], n), Then(block[1..], b.next), e);
      }
    case Head(loop, marked, n) =>
      if b.marked == marked {
        UnmarkedClean(Then(loop.orelse, n), Then(loop.orelse, b.next), e);
        if e.faults {
          UnmarkedJump(Raised, n, b.next, e);
        }
        if !marked {
          var again := Head(loop, true, n);
          assert Weight(again) == 2 + BlockSize(loop.orelse) + Weight(n);
          assert Unmarked(again, Head(loop, true, b.next), e, true);
          UnmarkedClean(Then(loop.body, again), Then(loop.body, Head(loop, true, b.next)), e);
        }
      }
    case Exit(_, n) => UnmarkedClean(n, b.next, e);
    case Catch(_, orelse, n) => UnmarkedClean(Then(orelse, n), Then(orelse, b.next), e);
    case Finally(block, n) => UnmarkedClean(Then(block, n), Then(block, b.next), e);
    case Resume(j, n) => UnmarkedJump(j, n, b.next, e);
  }

  lemma {:induction false} UnmarkedStart(s: Stmt, a: Cont, b: Cont, e: Env)
    requires Unmarked(a, b, e, true) && CleanStart(s, a, e)
    ensures CleanStart(s, b, e)
    decreases Size(s) + Weight(a), 1
  {
    hide Unmarked, Clean, CleanJump, CleanInside, Size, Weight, OwnUse, IsReset;
    if !OwnUse(s) {
      if s.Break? || s.Continue? || s.Return? {
        UnmarkedJump(if s.Break? then Broke else if s.Continue? then Continued else Returned, a, b, e);
      } else if !s.Raise? {
        UnmarkedInside(s, a, b, e);
      }
      if s.Raise? || (e.faults && !s.Break? && !s.Continue?) {
        UnmarkedJump(Raised, a, b, e);
      }
    }
  }

  lemma {:induction false} UnmarkedInside(s: Stmt, a: Cont, b: Cont, e: Env)
    requires Unmarked(a, b, e, true) && CleanInside(s, a, e)
    ensures CleanInside(s, b, e)
    decreases Size(s) + Weight(a), 0
  {
    hide Unmarked, Clean, CleanArms, BlockSize, ArmsSize, ExprsUseDb;
    match s
    case If(_, body, orelse) =>
      Lift(Then(body, Done), a, b, e, true);
      Lift(Then(orelse, Done), a, b, e, true);
      UnmarkedClean(Then(body, a), Then(body, b), e);
      UnmarkedClean(Then(orelse, a), Then(orelse, b), e);
    case Loop(_, _, _, _) =>
      Lift(Head(s, false, Done), a, b, e, true);
      UnmarkedClean(Head(s, false, a), Head(s, false, b), e);
    case With(items, body) =>
      var x, y := Exit(ExprsUseDb(items), a), Exit(ExprsUseDb(items), b);
      assert Weight(x) == 1 + Weight(a);
      Lift(Exit(ExprsUseDb(items), Done), a, b, e, true);
      Lift(Then(body, Done), x, y, e, true);
      UnmarkedClean(Then(body, x), Then(body, y), e);
    case Try(_, _, _, _) =>
      UnmarkedTry(s, a, b, e);
    case Match(_, cases) =>
      UnmarkedClean(a, b, e);
      UnmarkedArms(cases, a, b, e);
    case _ => UnmarkedClean(a, b, e);
  }

  lemma {:induction false} UnmarkedTry(s: Stmt, a: Cont, b: Cont, e: Env)
    requires s.Try? && Unmarked(a, b, e, true) && CleanInside(s, a, e)
    ensures CleanInside(s, b, e)
    decreases Size(s) + Weight(a), -1
  {
    hide Unmarked, Clean;
    var f, g := Finally(s.finalbody, a), Finally(s.finalbody, b);
    var x, y := Catch(s.handlers, s.orelse, f), Catch(s.handlers, s.orelse, g);
    assert Weight(x) == 2 + ArmsSize(s.handlers) + BlockSize(s.orelse) + Weight(f);
    assert Weight(f) == 3 + BlockSize(s.finalbody) + Weight(a);
    Lift(Finally(s.finalbody, Done), a, b, e, true);
    Lift(Catch(s.handlers, s.orelse, Done), f, g, e, true);
    Lift(Then(s.body, Done), x, y, e, true);
    UnmarkedClean(Then(s.body, x), Then(s.body, y), e);
  }

  lemma {:induction false} UnmarkedArms(arms: seq<Arm>, a: Cont, b: Cont, e: Env)
    requires Unmarked(a, b, e, true) && CleanArms(arms, a, e)
    ensures CleanArms(arms, b, e)
    decreases 1 + ArmsSize(arms) + Weight(a), 0
  {
    if arms != [] {
      UnmarkedClean(Then(arms[0].body, a), Then(arms[0].body, b), e);
      UnmarkedArms(arms[1..], a, b, e);
    }
  }

  lemma {:induction false} UnmarkedJump(j: Jump, a: Cont, b: Cont, e: Env)
    requires Unmarked(a, b, e, true) && CleanJump(j, a, e)
    ensures CleanJump(j, b, e)
    decreases Weight(a), 3
  {
    match a
    case Done =>
    case Then(_, n) => UnmarkedJump(j, n, b.next, e);
    case Head(_, _, n) =>
      if j == Broke {
        UnmarkedClean(n, b.next, e);
      } else if j == Continued {
        UnmarkedClean(a, b, e);
      } else {
        UnmarkedJump(j, n, b.next, e);
      }
    case Exit(_, n) => UnmarkedJump(j, n, b.next, e);
    case Catch(handlers, _, n) =>
      UnmarkedJump(j, n, b.next, e);
      if j == Raised {
        UnmarkedArms(handlers, n, b.next, e);
      }
    case Finally(block, n) =>
      assert Weight(Resume(j, n)) == 1 + Weight(n);
      assert Unmarked(Resume(j, n), Resume(j, b.next), e, true);
      UnmarkedClean(Then(block, Resume(j, n)), Then(block, Resume(j, b.next)), e);
    case Resume(_, n) => UnmarkedJump(j, n, b.next, e);
  }

  // ----- Clean is kept by every step -----

  lemma {:induction false} CleanArm(arms: seq<Arm>, i: nat, k: Cont, e: Env)
    requires i < |arms| && CleanArms(arms, k, e)
    ensures Clean(Then(arms[i].body, k), e)
  {
    if i > 0 {
      CleanArm(arms[1..], i - 1, k, e);
    }
  }

  lemma CleanEntersArm(arms: seq<Arm>, k: Cont, e: Env, d: Config)
    requires CleanArms(arms, k, e) && EntersArm(arms, k, d)
    ensures CleanConfig(d, e)
  {
    var i :| 0 <= i < |arms| && d == Run(Then(arms[i].body, k));
    CleanArm(arms, i, k, e);
  }

  /** Another turn of a loop: what one turn leaves undone is clean, so every further turn is. */
  lemma CleanTurn(loop: LoopStmt, k: Cont, e: Env)
    requires Clean(Head(loop, false, k), e)
    ensures Clean(Then(loop.body, Head(loop, false, k)), e)
  {
    var first, again := Head(loop, false, k), Head(loop, true, k);
    UnmarkedSelf(k, e, true);
    assert Unmarked(again, first, e, true);
    UnmarkedClean(Then(loop.body, again), Then(loop.body, first), e);
  }

  lemma {:induction false} CleanStartStep(s: Stmt, k: Cont, e: Env, d: Config)
    requires CleanStart(s, k, e) && !OwnUse(s) && StartsWith(s, e, k, d)
    ensures CleanConfig(d, e)
  {
    if s.Match? && EntersArm(s.cases, k, d) {
      CleanEntersArm(s.cases, k, e, d);
    }
  }

  lemma {:induction false} CleanStep(c: Config, e: Env, d: Config)
    requires CleanConfig(c, e) && !Touches(c) && Step(c, e, d)
    ensures CleanConfig(d, e)
  {
    match c
    case Run(Then(block, k)) =>
      if block != [] {
        CleanStartStep(block[0], Then(block[1..], k), e, d);
      }
    case Run(Head(loop, marked, k)) =>
      if !marked {
        CleanTurn(loop, k, e);
      }
    case Unwind(j, Catch(handlers, _, k)) =>
      if d != Unwind(j, k) {
        CleanEntersArm(handlers, k, e, d);
      }
    case _ =>
  }

  lemma {:induction false} CleanRun(c: Config, e: Env, p: seq<Config>)
    requires CleanConfig(c, e) && IsQuietRun(c, e, p)
    ensures !Violates(Last(c, p), e)
    decreases |p|
  {
    if Touches(c) {
      TouchingIsClean(c, e);
    } else if p != [] {
      CleanStep(c, e, p[0]);
      CleanRun(p[0], e, p[1..]);
    }
  }

  /** Where db is touched, the walk looks at that use alone. */
  lemma TouchingIsClean(c: Config, e: Env)
    requires Touches(c)
    ensures CleanConfig(c, e) <==> !Violates(c, e)
  {
    if c.Run? && c.k.Then? {
      assert Clean(c.k, e) == CleanStart(c.k.block[0], Then(c.k.block[1..], c.k.next), e);
    }
  }

  // ----- what is not clean has a bad run -----

  ghost predicate Alike(c: Config, d: Config, e: Env) {
    match c
    case Run(k) => d.Run? && Unmarked(k, d.k, e, false)
    case Unwind(j, k) => d.Unwind? && d.jump == j && Unmarked(k, d.k, e, false)
  }

  /** Unmarked loops can do what marked loops can. */
  lemma {:induction false} MimicStep(c: Config, d: Config, e: Env, c': Config) returns (d': Config)
    requires Alike(c, d, e) && Step(c, e, c')
    ensures Alike(c', d', e) && Step(d, e, d')
  {
    match c
    case Run(Then(block, k)) =>
      if block == [] {
        d' := Run(d.k.next);
      } else {
        d' := MimicStart(block[0], Then(block[1..], k), Then(block[1..], d.k.next), e, c');
      }
    case Run(Head(loop, marked, k)) =>
      d' := if c' == Run(Then(loop.orelse, k)) then Run(Then(loop.orelse, d.k.next))
            else if c'.Run? then Run(Then(loop.body, d.k))
            else Unwind(Raised, d.k.next);
    case Run(Exit(_, _)) => d' := Run(d.k.next);
    case Run(Catch(_, orelse, _)) => d' := Run(Then(orelse, d.k.next));
    case Run(Finally(block, _)) => d' := Run(Then(block, d.k.next));
    case Run(Resume(j, _)) => d' := Unwind(j, d.k.next);
    case Unwind(j, Head(_, _, _)) =>
      d' := if j == Broke then Run(d.k.next) else if j == Continued then Run(d.k) else Unwind(j, d.k.next);
    case Unwind(j, Catch(handlers, _, k)) =>
      d' := if c' == Unwind(j, k) then Unwind(j, d.k.next) else Run(Then(c'.k.block, d.k.next));
    case Unwind(j, Finally(block, k)) =>
      assert Unmarked(Resume(j, k), Resume(j, d.k.next), e, false);
      d' := Run(Then(block, Resume(j, d.k.next)));
    case Unwind(j, Then(_, _)) => d' := Unwind(j, d.k.next);
    case Unwind(j, Exit(_, _)) => d' := Unwind(j, d.k.next);
    case Unwind(j, Resume(_, _)) => d' := Unwind(j, d.k.next);
  }

  lemma {:induction false} MimicStart(s: Stmt, k: Cont, l: Cont, e: Env, c: Config) returns (d: Config)
    requires Unmarked(k, l, e, false) && StartsWith(s, e, k, c)
    ensures Alike(c, d, e) && StartsWith(s, e, l, d)
  {
    if c == Unwind(Raised, k) {
      d := Unwind(Raised, l);
      return;
    }
    match s
    case Break => d := Unwind(Broke, l);
    case Continue => d := Unwind(Continued, l);
    case Return(_) => d := Unwind(Returned, l);
    case If(_, _, _) => d := Run(Then(c.k.block, l));
    case Loop(_, _, _, _) => d := Run(Head(s, false, l));
    case With(items, body) =>
      var x, y := Exit(ExprsUseDb(items), k), Exit(ExprsUseDb(items), l);
      assert Unmarked(x, y, e, false);
      d := Run(Then(body, y));
    case Try(body, handlers, orelse, finalbody) =>
      var f, g := Finally(finalbody, k), Finally(finalbody, l);
      assert Unmarked(f, g, e, false) && Unmarked(Catch(handlers, orelse, f), Catch(handlers, orelse, g), e, false);
      d := Run(Then(body, Catch(handlers, orelse, g)));
    case Match(_, cases) => d := if c == Run(k) then Run(l) else Run(Then(c.k.block, l));
    case _ => d := Run(l);
  }

  lemma {:induction false} Mimic(c: Config, d: Config, e: Env, p: seq<Config>) returns (q: seq<Config>)
    requires Alike(c, d, e) && IsQuietRun(c, e, p) && Violates(Last(c, p), e)
    ensures IsQuietRun(d, e, q) && Violates(Last(d, q), e)
    decreases |p|
  {
    if p == [] {
      q := [];
    } else {
      var d' := MimicStep(c, d, e, p[0]);
      q := Mimic(p[0], d', e, p[1..]);
      q := Before(d, d', e, q);
    }
  }

  lemma Before(c: Config, d: Config, e: Env, p: seq<Config>) returns (q: seq<Config>)
    requires !Touches(c) && Step(c, e, d) && IsQuietRun(d, e, p)
    ensures q == [d] + p && IsQuietRun(c, e, q) && Last(c, q) == Last(d, p)
  {
    q := [d] + p;
    assert q[1..] == p;
  }

  /** A step into trouble. */
  lemma {:induction false} BadStart(s: Stmt, k: Cont, e: Env) returns (d: Config)
    requires !CleanStart(s, k, e) && !OwnUse(s)
    ensures StartsWith(s, e, k, d) && !CleanConfig(d, e) && Weight(d.k) < Size(s) + Weight(k)
  {
    hide Clean, CleanInside, CleanJump, Size, Weight, OwnUse, IsReset;
    if s.Break? {
      d := Unwind(Broke, k);
    } else if s.Continue? {
      d := Unwind(Continued, k);
    } else if !CleanJump(Raised, k, e) && (s.Raise? || e.faults) {
      d := Unwind(Raised, k);
    } else if s.Return? {
      d := Unwind(Returned, k);
    } else {
      d := BadInside(s, k, e);
    }
  }

  lemma {:induction false} BadInside(s: Stmt, k: Cont, e: Env) returns (d: Config)
    requires !CleanInside(s, k, e) && !s.Break? && !s.Continue? && !s.Return? && !s.Raise?
    ensures StartsWith(s, e, k, d) && !CleanConfig(d, e) && Weight(d.k) < Size(s) + Weight(k)
  {
    hide Clean, CleanArms, BlockSize, ArmsSize, ExprsUseDb;
    match s
    case If(_, body, orelse) =>
      d := Run(Then(if Clean(Then(body, k), e) then orelse else body, k));
    case Loop(_, _, _, _) => d := Run(Head(s, false, k));
    case With(items, body) =>
      var inside := Exit(ExprsUseDb(items), k);
      assert Weight(inside) == 1 + Weight(k);
      d := Run(Then(body, inside));
    case Try(body, handlers, orelse, finalbody) =>
      var fin := Finally(finalbody, k);
      var inside := Catch(handlers, orelse, fin);
      assert Weight(inside) == 2 + ArmsSize(handlers) + BlockSize(orelse) + Weight(fin);
      d := Run(Then(body, inside));
    case Match(_, cases) =>
      d := Run(k);
      if Clean(k, e) {
        d := BadArm(cases, k, e);
      }
    case _ => d := Run(k);
  }

  lemma {:induction false} BadArm(arms: seq<Arm>, k: Cont, e: Env) returns (d: Config)
    requires !CleanArms(arms, k, e)
    ensures EntersArm(arms, k, d) && !CleanConfig(d, e) && Weight(d.k) <= ArmsSize(arms) + Weight(k)
    decreases arms
  {
    if !Clean(Then(arms[0].body, k), e) {
      d := Run(Then(arms[0].body, k));
    } else {
      d := BadArm(arms[1..], k, e);
      var i :| 0 <= i < |arms[1..]| && d == Run(Then(arms[1..][i].body, k));
      assert arms[i + 1] == arms[1..][i];
    }
  }

  lemma {:induction false} BadRun(c: Config, e: Env) returns (p: seq<Config>)
    requires !CleanConfig(c, e)
    ensures IsQuietRun(c, e, p) && Violates(Last(c, p), e)
    decreases Weight(c.k), if c.Run? then 0 else 1
  {
    if Touches(c) {
      TouchingIsClean(c, e);
      p := [];
      return;
    }
    var d;
    match c {
      case Run(Then(block, k)) =>
        if block == [] {
          d := Run(k);
        } else {
          d := BadStart(block[0], Then(block[1..], k), e);
        }
      case Run(Head(loop, marked, k)) =>
        if !Clean(Then(loop.orelse, k), e) {
          d := Run(Then(loop.orelse, k));
        } else if e.faults && !CleanJump(Raised, k, e) {
          d := Unwind(Raised, k);
        } else {
          p := BadTurn(loop, k, e);
          return;
        }
      case Run(Exit(_, k)) => d := Run(k);
      case Run(Catch(_, orelse, k)) => d := Run(Then(orelse, k));
      case Run(Finally(block, k)) => d := Run(Then(block, k));
      case Run(Resume(j, k)) => d := Unwind(j, k);
      case Unwind(j, Head(_, _, k)) =>
        d := if j == Broke then Run(k) else if j == Continued then Run(c.k) else Unwind(j, k);
      case Unwind(j, Catch(handlers, _, k)) =>
        d := Unwind(j, k);
        if CleanJump(j, k, e) {
          d := BadArm(handlers, k, e);
        }
      case Unwind(j, Finally(block, k)) =>
        assert Weight(Resume(j, k)) == 1 + Weight(k);
        d := Run(Then(block, Resume(j, k)));
      case Unwind(j, Then(_, k)) => d := Unwind(j, k);
      case Unwind(j, Exit(_, k)) => d := Unwind(j, k);
      case Unwind(j, Resume(_, k)) => d := Unwind(j, k);
    }
    p := BadRun(d, e);
    p := Before(c, d, e, p);
  }

  /** The bad run of one turn, as a run of the loop. */
  lemma {:induction false} BadTurn(loop: LoopStmt, k: Cont, e: Env) returns (p: seq<Config>)
    requires var again := Head(loop, true, k); !Clean(Then(loop.body, again), e)
    requires !Touches(Run(Head(loop, false, k)))
    ensures var c := Run(Head(loop, false, k)); IsQuietRun(c, e, p) && Violates(Last(c, p), e)
    decreases Weight(Head(loop, false, k)), 0, 0
  {
    var first, again := Head(loop, false, k), Head(loop, true, k);
    assert Weight(again) == 2 + BlockSize(loop.orelse) + Weight(k);
    var c, d := Run(Then(loop.body, again)), Run(Then(loop.body, first));
    p := BadRun(c, e);
    UnmarkedSelf(k, e, false);
    assert Unmarked(again, first, e, false);
    p := Mimic(c, d, e, p);
    p := Before(Run(first), d, e, p);
  }

  /** The walk is exact: it accepts what is left to do exactly when no run uses db too early. */
  lemma {:induction false} CleanExactlySafe(k: Cont, e: Env)
    ensures Clean(k, e) <==> Safe(Run(k), e)
  {
    if Clean(k, e) {
      forall p | IsQuietRun(Run(k), e, p)
        ensures !Violates(Last(Run(k), p), e)
      {
        CleanRun(Run(k), e, p);
      }
    } else {
      var p := BadRun(Run(k), e);
    }
  }
}
