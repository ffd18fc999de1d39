/** Rule C on statements as they are written: what is a commit, a reset and a mention of db. */
module RuleCShapes {
  import opened Wrappers
  import opened PythonAst
  import opened RuleC

  // ----- mentions -----

  /** All names in an expression. */
  ghost function NamesOf(e: Expr): set<string> {
    match e
    case Name(id) => {id}
    case Attribute(v, _) => NamesOf(v)
    case Call(f, args, keywords) => NamesOf(f) + AllNames(args) + AllNames(keywords)
    case Await(v) => NamesOf(v)
    case Other(parts) => AllNames(parts)
  }

  ghost function AllNames(es: seq<Expr>): set<string> {
    set i, n | 0 <= i < |es| && n in NamesOf(es[i]) :: n
  }

  /** All names in a statement and the blocks and arms inside it; those in nested functions if `nested`. */
  ghost function NamesIn(s: Stmt, nested: bool): set<string>
    decreases s, 0
  {
    match s
    case ExprStmt(_, v) => NamesOf(v)
    case Plain(parts) => AllNames(parts)
    case Function(parts, inner) => AllNames(parts) + if nested then BlockNames(inner, nested) else {}
    case Class(parts, inner) => AllNames(parts) + BlockNames(inner, nested)
    case Break => {}
    case Continue => {}
    case Return(parts) => AllNames(parts)
    case Raise(parts) => AllNames(parts)
    case If(test, body, orelse) => NamesOf(test) + BlockNames(body, nested) + BlockNames(orelse, nested)
    case Loop(once, each, body, orelse) =>
      AllNames(once + each) + BlockNames(body, nested) + BlockNames(orelse, nested)
    case With(items, body) => AllNames(items) + BlockNames(body, nested)
    case Try(body, handlers, orelse, finalbody) =>
      BlockNames(body, nested) + ArmNames(handlers, nested) + BlockNames(orelse, nested) + BlockNames(finalbody, nested)
    case Match(subject, cases) => NamesOf(subject) + ArmNames(cases, nested)
  }

  ghost function BlockNames(ss: seq<Stmt>, nested: bool): set<string>
    decreases ss, 1
  {
    set i, n | 0 <= i < |ss| && n in NamesIn(ss[i], nested) :: n
  }

  ghost function ArmNames(arms: seq<Arm>, nested: bool): set<string>
    decreases arms, 1
  {
    set i, n | 0 <= i < |arms| && n in AllNames(arms[i].exprs) + BlockNames(arms[i].body, nested) :: n
  }

  lemma {:induction false} ExprMentions(e: Expr)
    ensures ExprUsesDb(e) <==> "db" in NamesOf(e)
  {
    match e
    case Name(_) =>
    case Attribute(v, _) => ExprMentions(v);
    case Call(f, args, keywords) =>
      ExprMentions(f);
      ExprsMention(args);
      ExprsMention(keywords);
    case Await(v) => ExprMentions(v);
    case Other(parts) => ExprsMention(parts);
  }

  lemma {:induction false} ExprsMention(es: seq<Expr>)
    ensures ExprsUseDb(es) <==> "db" in AllNames(es)
  {
    if es != [] {
      ExprMentions(es[0]);
      ExprsMention(es[1..]);
      assert es == [es[0]] + es[1..];
      NamesJoined([es[0]], es[1..]);
      assert AllNames([es[0]]) == NamesOf(es[0]) by { assert [es[0]][0] == es[0]; }
    }
  }

  lemma NamesJoined(a: seq<Expr>, b: seq<Expr>)
    ensures AllNames(a + b) == AllNames(a) + AllNames(b)
  {
    forall n | n in AllNames(b)
      ensures n in AllNames(a + b)
    {
      var i :| 0 <= i < |b| && n in NamesOf(b[i]);
      assert (a + b)[|a| + i] == b[i];
    }
    forall n | n in AllNames(a)
      ensures n in AllNames(a + b)
    {
      var i :| 0 <= i < |a| && n in NamesOf(a[i]);
      assert (a + b)[i] == a[i];
    }
  }

  /** The linter takes a statement to use db exactly when the name db is among its names. */
  lemma {:induction false} UsesDbIsMention(s: Stmt)
    ensures UsesDb(s) <==> "db" in NamesIn(s, true)
    decreases s, 0
  {
    match s
    case ExprStmt(_, v) => ExprMentions(v);
    case Plain(parts) => ExprsMention(parts);
    case Function(parts, inner) => ExprsMention(parts); BlockMention(inner);
    case Class(parts, inner) => ExprsMention(parts); BlockMention(inner);
    case Break =>
    case Continue =>
    case Return(parts) => ExprsMention(parts);
    case Raise(parts) => ExprsMention(parts);
    case If(test, body, orelse) => ExprMentions(test); BlockMention(body); BlockMention(orelse);
    case Loop(once, each, body, orelse) =>
      ExprsMention(once);
      ExprsMention(each);
      NamesJoined(once, each);
      BlockMention(body);
      BlockMention(orelse);
    case With(items, body) => ExprsMention(items); BlockMention(body);
    case Try(body, handlers, orelse, finalbody) =>
      BlockMention(body);
      ArmsMention(handlers);
      BlockMention(orelse);
      BlockMention(finalbody);
    case Match(subject, cases) => ExprMentions(subject); ArmsMention(cases);
  }

  lemma {:induction false} BlockMention(ss: seq<Stmt>)
    ensures BlockUsesDb(ss) <==> "db" in BlockNames(ss, true)
    decreases ss, 1
  {
    if ss != [] {
      UsesDbIsMention(ss[0]);
      BlockMention(ss[1..]);
      hide UsesDb, NamesIn;
      if i :| 0 <= i < |ss| && "db" in NamesIn(ss[i], true) {
        assert i > 0 ==> ss[1..][i - 1] == ss[i];
      }
      if i :| 0 <= i < |ss| - 1 && "db" in NamesIn(ss[1..][i], true) {
        assert ss[1..][i] == ss[i + 1];
      }
    }
  }

  lemma {:induction false} ArmsMention(arms: seq<Arm>)
    ensures ArmsUseDb(arms) <==> "db" in ArmNames(arms, true)
    decreases arms, 1
  {
    if arms != [] {
      var first, rest := arms[0], arms[1..];
      ExprsMention(first.exprs);
      BlockMention(first.body);
      ArmsMention(rest);
      hide BlockNames, AllNames, BlockUsesDb, ExprsUseDb;
      if i :| 0 <= i < |arms| && "db" in AllNames(arms[i].exprs) + BlockNames(arms[i].body, true) {
        assert i > 0 ==> rest[i - 1] == arms[i];
      }
      if i :| 0 <= i < |rest| && "db" in AllNames(rest[i].exprs) + BlockNames(rest[i].body, true) {
        assert rest[i] == arms[i + 1];
      }
    }
  }

  /** Run, a statement uses db when the name db is among its names outside nested functions. */
  lemma {:induction false} RunsDbIsMention(s: Stmt)
    ensures RunsDb(s) <==> "db" in NamesIn(s, false)
    decreases s, 0
  {
    match s
    case ExprStmt(_, v) => ExprMentions(v);
    case Plain(parts) => ExprsMention(parts);
    case Function(parts, _) => ExprsMention(parts);
    case Class(parts, inner) => ExprsMention(parts); BlockRunMention(inner);
    case Break =>
    case Continue =>
    case Return(parts) => ExprsMention(parts);
    case Raise(parts) => ExprsMention(parts);
    case If(test, body, orelse) => ExprMentions(test); BlockRunMention(body); BlockRunMention(orelse);
    case Loop(once, each, body, orelse) =>
      ExprsMention(once);
      ExprsMention(each);
      NamesJoined(once, each);
      BlockRunMention(body);
      BlockRunMention(orelse);
    case With(items, body) => ExprsMention(items); BlockRunMention(body);
    case Try(body, handlers, orelse, finalbody) =>
      BlockRunMention(body);
      ArmsRunMention(handlers);
      BlockRunMention(orelse);
      BlockRunMention(finalbody);
    case Match(subject, cases) => ExprMentions(subject); ArmsRunMention(cases);
  }

  lemma {:induction false} BlockRunMention(ss: seq<Stmt>)
    ensures BlockRunsDb(ss) <==> "db" in BlockNames(ss, false)
    decreases ss, 1
  {
    if ss != [] {
      RunsDbIsMention(ss[0]);
      BlockRunMention(ss[1..]);
      hide RunsDb, NamesIn;
      if i :| 0 <= i < |ss| && "db" in NamesIn(ss[i], false) {
        assert i > 0 ==> ss[1..][i - 1] == ss[i];
      }
      if i :| 0 <= i < |ss| - 1 && "db" in NamesIn(ss[1..][i], false) {
        assert ss[1..][i] == ss[i + 1];
      }
    }
  }

  lemma {:induction false} ArmsRunMention(arms: seq<Arm>)
    ensures ArmsRunDb(arms) <==> "db" in ArmNames(arms, false)
    decreases arms, 1
  {
    if arms != [] {
      var first, rest := arms[0], arms[1..];
      ExprsMention(first.exprs);
      BlockRunMention(first.body);
      ArmsRunMention(rest);
      hide BlockNames, AllNames, BlockRunsDb, ExprsUseDb;
      if i :| 0 <= i < |arms| && "db" in AllNames(arms[i].exprs) + BlockNames(arms[i].body, false) {
        assert i > 0 ==> rest[i - 1] == arms[i];
      }
      if i :| 0 <= i < |rest| && "db" in AllNames(rest[i].exprs) + BlockNames(rest[i].body, false) {
        assert rest[i] == arms[i + 1];
      }
    }
  }

  /** The names that starting a statement evaluates. */
  ghost function OwnNames(s: Stmt): set<string> {
    match s
    case If(test, _, _) => NamesOf(test)
    case Loop(once, _, _, _) => AllNames(once)
    case With(items, _) => AllNames(items)
    case Try(_, _, _, _) => {}
    case Match(subject, cases) => NamesOf(subject) + set i, n | 0 <= i < |cases| && n in AllNames(cases[i].exprs) :: n
    case _ => NamesIn(s, false)
  }

  lemma {:induction false} ArmExprsMention(arms: seq<Arm>)
    ensures ArmExprsUseDb(arms) <==> exists i :: 0 <= i < |arms| && "db" in AllNames(arms[i].exprs)
  {
    if arms != [] {
      var rest := arms[1..];
      ExprsMention(arms[0].exprs);
      ArmExprsMention(rest);
      hide AllNames, ExprsUseDb;
      if i :| 0 <= i < |arms| && "db" in AllNames(arms[i].exprs) {
        assert i > 0 ==> rest[i - 1] == arms[i];
      }
      if i :| 0 <= i < |rest| && "db" in AllNames(rest[i].exprs) {
        assert rest[i] == arms[i + 1];
      }
    }
  }

  /** Starting a statement uses db when the name db is among these. */
  lemma OwnUseIsMention(s: Stmt)
    ensures OwnUse(s) <==> "db" in OwnNames(s)
  {
    match s
    case If(test, _, _) => ExprMentions(test);
    case Loop(once, _, _, _) => ExprsMention(once);
    case With(items, _) => ExprsMention(items);
    case Try(_, _, _, _) =>
    case Match(subject, cases) =>
      ExprMentions(subject);
      ArmExprsMention(cases);
    case _ => RunsDbIsMention(s);
  }

  // ----- commits and resets -----

  /** The statement `await db.commit(...)`. */
  ghost predicate IsCommitText(s: Stmt) {
    exists line, args, kw :: s == ExprStmt(line, Await(Call(Attribute(Name("db"), "commit"), args, kw)))
  }

  /** The statement `await n(db, ...)` with a name that resets the tenant. */
  ghost predicate IsResetText(s: Stmt, names: set<string>) {
    exists line, n, args, kw ::
      n in names && s == ExprStmt(line, Await(Call(Name(n), [Name("db")] + args, kw)))
  }

  lemma CommitText(s: Stmt)
    ensures IsCommit(s) <==> IsCommitText(s)
  {
    if IsCommit(s) {
      var call := s.value.value;
      assert s == ExprStmt(s.line, Await(Call(Attribute(Name("db"), "commit"), call.args, call.keywords)));
    }
  }

  lemma ResetText(s: Stmt, names: set<string>)
    ensures IsReset(s, names) <==> IsResetText(s, names)
  {
    if IsReset(s, names) {
      var call := s.value.value;
      assert call.args == [Name("db")] + call.args[1..];
      assert s == ExprStmt(s.line, Await(Call(Name(call.func.id), [Name("db")] + call.args[1..], call.keywords)));
    }
  }

  /** A commit and then a statement that mentions db, whatever it is: that pair is reported, and reported
      first, unless the statement is `await n(db, ...)` with one of the names; then nothing is. */
  lemma CommitThenUse(c: Stmt, s: Stmt, names: set<string>)
    requires IsCommitText(c) && "db" in NamesIn(s, true)
    ensures Silent([c, s], names) <==> IsResetText(s, names)
    ensures var v := Violations(Collected([c, s], [], []), names);
            if IsResetText(s, names) then v == [] else v != [] && v[0] == (c, s)
  {
    CommitText(c);
    ResetText(s, names);
    UsesDbIsMention(s);
    var rest := Wrap([s], []) + [];
    var body, found := [c, s], Collected([c, s], [], []);
    assert body[1..] == [s];
    assert rest[0] == Entry(s, []);
    assert !s.Break? && !s.Continue?;
    assert FirstDb(rest) == Some(s);
    hide UsesDb, NamesIn, IsCommitText, IsResetText;
    assert CollectedIn(c, rest, []) == [Found(c, rest)];
    assert found == CollectedIn(body[0], Wrap(body[1..], []) + [], []) + Collected(body[1..], [], []);
    assert found == [Found(c, rest)] + Collected([s], [], []);
    assert found[0] == Found(c, rest);
    if IsReset(s, names) {
      assert !IsCommit(s);
      assert Collected([s], [], []) == CollectedIn(s, Wrap([], []) + [], []) + [] by { assert [s][1..] == []; }
      assert found == [Found(c, rest)];
    }
    NoViolations(found, names);
  }
}
