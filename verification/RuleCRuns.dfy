/** What an async function may do when it runs, statement by statement. Every
    branch, every number of loop turns and every handler is possible; with
    `faults` every statement may also raise. */
module RuleCRuns {
  import opened PythonAst

  datatype Env = Env(names: set<string>, faults: bool)

  /** How a statement or a block ends. */
  datatype Outcome = Normal | Broke | Continued | Returned | Raised

  type Jump = o: Outcome | !o.Normal? witness Broke

  type LoopStmt = s: Stmt | s.Loop? witness Loop([], [], [], [])

  /** What is left to do, innermost first. */
  datatype Cont =
    | Done
    | Then(block: seq<Stmt>, next: Cont)                    // the rest of a block
    | Head(loop: LoopStmt, marked: bool, next: Cont)        // about to test a loop
    | Exit(usesDb: bool, next: Cont)                        // about to leave a with block
    | Catch(handlers: seq<Arm>, orelse: seq<Stmt>, next: Cont)  // inside the body of a try
    | Finally(block: seq<Stmt>, next: Cont)                 // a finally block is due
    | Resume(jump: Jump, next: Cont)                        // after a finally block, the jump goes on

  /** Going on normally, or leaving frames because of a jump. */
  datatype Config = Run(k: Cont) | Unwind(jump: Jump, k: Cont)

  function After(o: Outcome, k: Cont): Config {
    if o.Normal? then Run(k) else Unwind(o, k)
  }

  /** The next step evaluates something that mentions db. */
  predicate Touches(c: Config) {
    match c.k
    case Then(block, _) => c.Run? && block != [] && OwnUse(block[0])
    case Head(loop, _, _) => c.Run? && ExprsUseDb(loop.each)
    case Exit(usesDb, _) => usesDb
    case Catch(handlers, _, _) => c == Unwind(Raised, c.k) && ArmExprsUseDb(handlers)
    case _ => false
  }

  /** It touches db with something other than a tenant reset. */
  predicate Violates(c: Config, e: Env) {
    Touches(c) && !(c.Run? && c.k.Then? && IsReset(c.k.block[0], e.names))
  }

  /** How a statement may start: a compound statement is entered. */
  predicate StartsWith(s: Stmt, e: Env, k: Cont, c: Config) {
    || (e.faults && !s.Break? && !s.Continue? && c == Unwind(Raised, k))
    || match s
       case Break => c == Unwind(Broke, k)
       case Continue => c == Unwind(Continued, k)
       case Return(_) => c == Unwind(Returned, k)
       case Raise(_) => c == Unwind(Raised, k)
       case If(_, body, orelse) => c == Run(Then(body, k)) || c == Run(Then(orelse, k))
       case Loop(_, _, _, _) => c == Run(Head(s, false, k))
       case With(items, body) => c == Run(Then(body, Exit(ExprsUseDb(items), k)))
       case Try(body, handlers, orelse, finalbody) =>
         c == Run(Then(body, Catch(handlers, orelse, Finally(finalbody, k))))
       case Match(_, cases) => c == Run(k) || EntersArm(cases, k, c)
       case _ => c == Run(k)
  }

  predicate EntersArm(arms: seq<Arm>, k: Cont, c: Config) {
    exists i :: 0 <= i < |arms| && c == Run(Then(arms[i].body, k))
  }

  /** One step. A marked loop only leaves: its next turn ends the observation. */
  predicate Step(c: Config, e: Env, d: Config) {
    match c
    case Run(Done) => false
    case Run(Then(block, k)) =>
      if block == [] then d == Run(k) else StartsWith(block[0], e, Then(block[1..], k), d)
    case Run(Head(loop, marked, k)) =>
      || d == Run(Then(loop.orelse, k))
      || (!marked && d == Run(Then(loop.body, c.k)))
      || (e.faults && d == Unwind(Raised, k))
    case Run(Exit(_, k)) => d == Run(k)
    case Run(Catch(_, orelse, k)) => d == Run(Then(orelse, k))
    case Run(Finally(block, k)) => d == Run(Then(block, k))
    case Run(Resume(j, k)) => d == Unwind(j, k)
    case Unwind(j, Done) => false
    case Unwind(j, Head(loop, marked, k)) =>
      if j == Broke then d == Run(k)
      else if j == Continued then d == Run(c.k)
      else d == Unwind(j, k)
    case Unwind(j, Catch(handlers, _, k)) =>
      d == Unwind(j, k) || (j == Raised && EntersArm(handlers, k, d))
    case Unwind(j, Finally(block, k)) => d == Run(Then(block, Resume(j, k)))
    case Unwind(j, _) => d == Unwind(j, c.k.next)
  }

  // ----- runs -----

  /** `p` lists the configurations a run goes through after `c`. */
  ghost predicate IsRun(c: Config, e: Env, p: seq<Config>)
    decreases |p|
  {
    p != [] ==> Step(c, e, p[0]) && IsRun(p[0], e, p[1..])
  }

  function Last(c: Config, p: seq<Config>): Config {
    if p == [] then c else p[|p| - 1]
  }

  /** A run along which db is not touched, except possibly by the last configuration. */
  ghost predicate IsQuietRun(c: Config, e: Env, p: seq<Config>)
    decreases |p|
  {
    p != [] ==> !Touches(c) && Step(c, e, p[0]) && IsQuietRun(p[0], e, p[1..])
  }

  /** No run from `c` touches db first with something other than a reset. */
  ghost predicate Safe(c: Config, e: Env) {
    forall p :: IsQuietRun(c, e, p) ==> !Violates(Last(c, p), e)
  }

  /** The loops open at this point enclose the commit: mark them. */
  function MarkOld(k: Cont): Cont {
    match k
    case Done => Done
    case Then(b, n) => Then(b, MarkOld(n))
    case Head(l, _, n) => Head(l, true, MarkOld(n))
    case Exit(u, n) => Exit(u, MarkOld(n))
    case Catch(h, o, n) => Catch(h, o, MarkOld(n))
    case Finally(b, n) => Finally(b, MarkOld(n))
    case Resume(j, n) => Resume(j, MarkOld(n))
  }
}
