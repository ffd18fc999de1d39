/** The part of Python's syntax tree that Rule C looks at. */
module PythonAst {

  datatype Expr =
    | Name(id: string)
    | Attribute(value: Expr, attr: string)
    | Call(func: Expr, args: seq<Expr>, keywords: seq<Expr>)
    | Await(value: Expr)
    | Other(parts: seq<Expr>)

  /** An exception handler or a match case: its own expressions and its block. */
  datatype Arm = Arm(exprs: seq<Expr>, body: seq<Stmt>)

  datatype Stmt =
    | ExprStmt(line: nat, value: Expr)
    | Plain(parts: seq<Expr>)                                // assignment, pass, import, ...
    | Function(parts: seq<Expr>, inner: seq<Stmt>)           // nested function: decorators, defaults; body
    | Class(parts: seq<Expr>, inner: seq<Stmt>)              // nested class: bases; body
    | Break
    | Continue
    | Return(parts: seq<Expr>)
    | Raise(parts: seq<Expr>)
    | If(test: Expr, body: seq<Stmt>, orelse: seq<Stmt>)
    // for, async for, while: what is evaluated once, and what at every turn
    | Loop(once: seq<Expr>, each: seq<Expr>, body: seq<Stmt>, orelse: seq<Stmt>)
    | With(items: seq<Expr>, body: seq<Stmt>)                // with, async with
    | Try(body: seq<Stmt>, handlers: seq<Arm>, orelse: seq<Stmt>, finalbody: seq<Stmt>)
    | Match(subject: Expr, cases: seq<Arm>)

  predicate ExprUsesDb(e: Expr) {
    match e
    case Name(id) => id == "db"
    case Attribute(v, _) => ExprUsesDb(v)
    case Call(f, args, keywords) => ExprUsesDb(f) || ExprsUseDb(args) || ExprsUseDb(keywords)
    case Await(v) => ExprUsesDb(v)
    case Other(parts) => ExprsUseDb(parts)
  }

  predicate ExprsUseDb(es: seq<Expr>) {
    es != [] && (ExprUsesDb(es[0]) || ExprsUseDb(es[1..]))
  }

  /** The name db occurs anywhere in the statement, nested blocks included. */
  predicate UsesDb(s: Stmt) {
    match s
    case ExprStmt(_, v) => ExprUsesDb(v)
    case Plain(parts) => ExprsUseDb(parts)
    case Function(parts, inner) => ExprsUseDb(parts) || BlockUsesDb(inner)
    case Class(parts, inner) => ExprsUseDb(parts) || BlockUsesDb(inner)
    case Break => false
    case Continue => false
    case Return(parts) => ExprsUseDb(parts)
    case Raise(parts) => ExprsUseDb(parts)
    case If(test, body, orelse) => ExprUsesDb(test) || BlockUsesDb(body) || BlockUsesDb(orelse)
    case Loop(once, each, body, orelse) =>
      ExprsUseDb(once) || ExprsUseDb(each) || BlockUsesDb(body) || BlockUsesDb(orelse)
    case With(items, body) => ExprsUseDb(items) || BlockUsesDb(body)
    case Try(body, handlers, orelse, finalbody) =>
      BlockUsesDb(body) || ArmsUseDb(handlers) || BlockUsesDb(orelse) || BlockUsesDb(finalbody)
    case Match(subject, cases) => ExprUsesDb(subject) || ArmsUseDb(cases)
  }

  predicate BlockUsesDb(ss: seq<Stmt>) {
    ss != [] && (UsesDb(ss[0]) || BlockUsesDb(ss[1..]))
  }

  predicate ArmsUseDb(arms: seq<Arm>) {
    arms != [] && (ExprsUseDb(arms[0].exprs) || BlockUsesDb(arms[0].body) || ArmsUseDb(arms[1..]))
  }

  /** The expression statement `await db.commit(...)`. */
  predicate IsCommit(s: Stmt) {
    && s.ExprStmt?
    && s.value.Await?
    && s.value.value.Call?
    && s.value.value.func.Attribute?
    && s.value.value.func.attr == "commit"
    && s.value.value.func.value == Name("db")
  }

  /** The expression statement `await <name>(db, ...)` with a name that resets the tenant. */
  predicate IsReset(s: Stmt, names: set<string>) {
    && s.ExprStmt?
    && s.value.Await?
    && s.value.value.Call?
    && s.value.value.func.Name?
    && s.value.value.func.id in names
    && |s.value.value.args| > 0
    && s.value.value.args[0] == Name("db")
  }

  // ----- what a statement uses when it runs -----

  /** The name db occurs outside the bodies of nested functions. */
  predicate RunsDb(s: Stmt) {
    match s
    case ExprStmt(_, v) => ExprUsesDb(v)
    case Plain(parts) => ExprsUseDb(parts)
    case Function(parts, _) => ExprsUseDb(parts)
    case Class(parts, inner) => ExprsUseDb(parts) || BlockRunsDb(inner)
    case Break => false
    case Continue => false
    case Return(parts) => ExprsUseDb(parts)
    case Raise(parts) => ExprsUseDb(parts)
    case If(test, body, orelse) => ExprUsesDb(test) || BlockRunsDb(body) || BlockRunsDb(orelse)
    case Loop(once, each, body, orelse) =>
      ExprsUseDb(once) || ExprsUseDb(each) || BlockRunsDb(body) || BlockRunsDb(orelse)
    case With(items, body) => ExprsUseDb(items) || BlockRunsDb(body)
    case Try(body, handlers, orelse, finalbody) =>
      BlockRunsDb(body) || ArmsRunDb(handlers) || BlockRunsDb(orelse) || BlockRunsDb(finalbody)
    case Match(subject, cases) => ExprUsesDb(subject) || ArmsRunDb(cases)
  }

  predicate BlockRunsDb(ss: seq<Stmt>) {
    ss != [] && (RunsDb(ss[0]) || BlockRunsDb(ss[1..]))
  }

  predicate ArmsRunDb(arms: seq<Arm>) {
    arms != [] && (ExprsUseDb(arms[0].exprs) || BlockRunsDb(arms[0].body) || ArmsRunDb(arms[1..]))
  }

  /** Some arm mentions db in its own expressions. */
  predicate ArmExprsUseDb(arms: seq<Arm>) {
    arms != [] && (ExprsUseDb(arms[0].exprs) || ArmExprsUseDb(arms[1..]))
  }

  /** Starting the statement uses db: of a compound statement only its own expressions count. The
      test of a loop and the expressions of handlers come later. */
  predicate OwnUse(s: Stmt) {
    match s
    case If(test, _, _) => ExprUsesDb(test)
    case Loop(once, _, _, _) => ExprsUseDb(once)
    case With(items, _) => ExprsUseDb(items)
    case Try(_, _, _, _) => false
    case Match(subject, cases) => ExprUsesDb(subject) || ArmExprsUseDb(cases)
    case _ => RunsDb(s)
  }

  lemma {:induction false} RunsUses(s: Stmt)
    ensures RunsDb(s) ==> UsesDb(s)
  {
    match s
    case Class(_, inner) => BlockRunsUses(inner);
    case If(_, body, orelse) => BlockRunsUses(body); BlockRunsUses(orelse);
    case Loop(_, _, body, orelse) => BlockRunsUses(body); BlockRunsUses(orelse);
    case With(_, body) => BlockRunsUses(body);
    case Try(body, handlers, orelse, finalbody) =>
      BlockRunsUses(body);
      ArmsRunUse(handlers);
      BlockRunsUses(orelse);
      BlockRunsUses(finalbody);
    case Match(_, cases) => ArmsRunUse(cases);
    case _ =>
  }

  lemma {:induction false} BlockRunsUses(ss: seq<Stmt>)
    ensures BlockRunsDb(ss) ==> BlockUsesDb(ss)
  {
    if ss != [] {
      RunsUses(ss[0]);
      BlockRunsUses(ss[1..]);
    }
  }

  lemma {:induction false} ArmsRunUse(arms: seq<Arm>)
    ensures ArmsRunDb(arms) ==> ArmsUseDb(arms)
    ensures ArmExprsUseDb(arms) ==> ArmsUseDb(arms)
  {
    if arms != [] {
      BlockRunsUses(arms[0].body);
      ArmsRunUse(arms[1..]);
    }
  }

  lemma OwnUseUses(s: Stmt)
    ensures OwnUse(s) ==> UsesDb(s)
  {
    RunsUses(s);
    if s.Match? {
      ArmsRunUse(s.cases);
    }
  }
}
