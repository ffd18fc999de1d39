/** Printing a value as an SQL literal and reading it back with the quote scanners. */
module SqlLiteral {
  import opened PythonText
  import opened Wrappers
  import opened SqlLexis
  import C = ChurnStrip

  function Doubled(v: string): string {
    if v == [] then [] else (if v[0] == '\'' then "''" else [v[0]]) + Doubled(v[1..])
  }

  function Undoubled(s: string): string {
    if s == [] then []
    else if |s| > 1 && s[0] == '\'' && s[1] == '\'' then "'" + Undoubled(s[2..])
    else [s[0]] + Undoubled(s[1..])
  }

  function SqlStr(value: Option<string>): string {
    if value.None? || Stripped(value.value) == [] then "NULL"
    else "'" + Doubled(Stripped(value.value)) + "'"
  }

  lemma {:induction false} UndoubleDoubled(v: string)
    ensures Undoubled(Doubled(v)) == v
  {
    if v != [] {
      UndoubleDoubled(v[1..]);
      var first := if v[0] == '\'' then "''" else [v[0]];
      assert Doubled(v)[|first|..] == Doubled(v[1..]);
    }
  }

  lemma {:induction false} DoubledAppend(x: string, y: string)
    ensures Doubled(x + y) == Doubled(x) + Doubled(y)
  {
    if x == "" {
      assert x + y == y;
    } else {
      assert (x + y)[1..] == x[1..] + y;
      DoubledAppend(x[1..], y);
    }
  }

  lemma {:induction false} NoneDoubled(x: string)
    requires '\'' !in x
    ensures Doubled(x) == x
  {
    if x != "" {
      assert x[0] in x && forall c | c in x[1..] :: c in x;
      NoneDoubled(x[1..]);
    }
  }

  /** The parts of a value between its quotes, and the same with two quotes for each. */
  function Quoted(parts: seq<string>, quote: string): string {
    if parts == [] then "" else if |parts| == 1 then parts[0] else parts[0] + (quote + Quoted(parts[1..], quote))
  }

  lemma {:induction false} QuotesDoubled(parts: seq<string>)
    requires forall p | p in parts :: '\'' !in p
    ensures Doubled(Quoted(parts, "'")) == Quoted(parts, "''")
  {
    if parts != [] {
      assert parts[0] in parts && forall p | p in parts[1..] :: p in parts;
      NoneDoubled(parts[0]);
      hide Doubled;
      if |parts| > 1 {
        var rest := Quoted(parts[1..], "'");
        QuotesDoubled(parts[1..]);
        DoubledAppend(parts[0], "'" + rest);
        DoubledAppend("'", rest);
        assert Doubled("'") == "''" by { OneQuote(); }
      }
    }
  }

  lemma OneQuote()
    ensures Doubled("'") == "''"
  {
  }

  /** No value and a blank one are printed as NULL, any other without the blanks around it, between quotes and
      with its own quotes doubled. */
  lemma ValuePrinted(a: string, parts: seq<string>, b: string)
    requires AreBlanks(a) && AreBlanks(b) && IsCore(Quoted(parts, "'")) && forall p | p in parts :: '\'' !in p
    ensures SqlStr(None) == "NULL"
    ensures SqlStr(Some(a + Quoted(parts, "'") + b)) ==
            if Quoted(parts, "'") == "" then "NULL" else "'" + Quoted(parts, "''") + "'"
  {
    hide AreBlanks, IsCore, Quoted, Doubled;
    StrippedIs(a, Quoted(parts, "'"), b);
    QuotesDoubled(parts);
  }

  /** What is left of the printed value stands in t at j, followed by the closing quote at e - 1. */
  ghost predicate Ahead(t: string, j: nat, v: string, e: nat)
    ensures Ahead(t, j, v, e) ==> j < e <= |t|
  {
    e == j + |Doubled(v)| + 1 && e <= |t| && t[j..e] == Doubled(v) + "'" && (e < |t| ==> t[e] != '\'')
  }

  lemma AheadOn(t: string, j: nat, v: string, e: nat) returns (k: nat)
    requires Ahead(t, j, v, e) && v != []
    ensures k == j + (if v[0] == '\'' then 2 else 1) && Ahead(t, k, v[1..], e)
    ensures t[j] == v[0] && (v[0] == '\'' ==> t[j + 1] == '\'')
  {
    var first := if v[0] == '\'' then "''" else [v[0]];
    k := j + |first|;
    var whole := Doubled(v) + "'";
    assert t[j..e] == whole && whole[..|first|] == first && whole[|first|..] == Doubled(v[1..]) + "'";
    assert t[k..e] == t[j..e][|first|..];
    assert t[j] == t[j..e][0] && (|first| == 2 ==> t[j + 1] == t[j..e][1]);
  }

  // ----- backslashes in an escape string -----

  /** How many backslashes stand directly before k. */
  function Backslashes(v: string, k: nat): nat
    requires k <= |v|
  {
    if k > 0 && v[k - 1] == '\\' then 1 + Backslashes(v, k - 1) else 0
  }

  /** Before every quote and at the end the backslashes pair up. */
  predicate PairedUp(v: string) {
    forall k :: 0 <= k <= |v| && (k == |v| || v[k] == '\'') ==> Backslashes(v, k) % 2 == 0
  }

  ghost predicate PairedFrom(v: string, k: nat) {
    forall m :: k <= m <= |v| && (m == |v| || v[m] == '\'') ==> Backslashes(v, m) % 2 == 0
  }

  /** From k on no backslash that escapes stands before a quote or at the end. */
  predicate EscapesNoQuote(v: string, k: nat)
    requires k <= |v|
    decreases |v| - k
  {
    if k == |v| then true
    else if v[k] == '\\' then k + 1 < |v| && v[k + 1] != '\'' && EscapesNoQuote(v, k + 2)
    else EscapesNoQuote(v, k + 1)
  }

  lemma {:induction false} PairedIsRead(v: string, k: nat)
    requires k <= |v| && Backslashes(v, k) % 2 == 0
    ensures EscapesNoQuote(v, k) <==> PairedFrom(v, k)
    decreases |v| - k
  {
    if k < |v| && v[k] == '\\' {
      var run := Backslashes(v, k);
      assert Backslashes(v, k + 1) == 1 + run && (1 + run) % 2 == 1;
      if k + 1 < |v| && v[k + 1] != '\'' {
        assert Backslashes(v, k + 2) == if v[k + 1] == '\\' then 2 + run else 0;
        PairedIsRead(v, k + 2);
      }
    } else if k < |v| {
      PairedIsRead(v, k + 1);
    }
  }

  /** The reading has lost step: it stands on the second quote of a pair. */
  ghost predicate OffStep(t: string, j: nat, v: string, e: nat) {
    j + 1 < e && j < |t| && t[j] == '\'' && Ahead(t, j + 1, v, e)
  }

  /** Then it does not end at the printed end. */
  lemma {:induction false} OffStepMisses(t: string, j: nat, v: string, e: nat)
    requires OffStep(t, j, v, e)
    ensures QuoteEndFrom(t, '\'', true, j, |t|) != Some(e)
    decreases |v|
  {
    if v == [] {
      assert t[j + 1] == t[j + 1..e][0] == '\'';
    } else {
      var k := AheadOn(t, j + 1, v, e);
      if v[0] == '\'' {
        assert OffStep(t, j + 2, v[1..], e);
        OffStepMisses(t, j + 2, v[1..], e);
      }
    }
  }

  /** Read as an escape string, what is left of the printed value ends where it was printed to exactly
      when no quote in it is escaped. */
  lemma {:induction false} EscapedReadBack(t: string, j: nat, v: string, k: nat, e: nat)
    requires k <= |v| && Ahead(t, j, v[k..], e)
    ensures QuoteEndFrom(t, '\'', true, j, |t|) == Some(e) <==> EscapesNoQuote(v, k)
    decreases |v| - k
  {
    if k == |v| {
      assert t[j] == t[j..e][0] == '\'';
    } else {
      var n := AheadOn(t, j, v[k..], e);
      assert v[k..][1..] == v[k + 1..] && v[k..][0] == v[k];
      if v[k] == '\\' {
        if k + 1 == |v| {
          assert n + 1 == e;
        } else {
          var m := AheadOn(t, n, v[k + 1..], e);
          assert v[k + 1..][1..] == v[k + 2..] && v[k + 1..][0] == v[k + 1];
          if v[k + 1] == '\'' {
            assert OffStep(t, n + 1, v[k + 2..], e);
            OffStepMisses(t, n + 1, v[k + 2..], e);
          } else {
            EscapedReadBack(t, m, v, k + 2, e);
          }
        }
      } else {
        EscapedReadBack(t, n, v, k + 1, e);
      }
    }
  }

  lemma {:induction false} ReadBack(t: string, j: nat, v: string, e: nat)
    requires Ahead(t, j, v, e)
    ensures QuoteEndFrom(t, '\'', false, j, |t|) == Some(e) && C.LiteralEnd(t, j) == e
    decreases |v|
  {
    if v == [] {
      assert t[j] == t[j..e][0];
    } else {
      var k := AheadOn(t, j, v, e);
      ReadBack(t, k, v[1..], e);
    }
  }

  /** Followed by anything but a quote, the printed value is one literal and comes back from between its
      quotes: for the scanner of column churn always, for the scanner of statements unless it reads an
      escape string in which the backslashes before some quote or at the end do not pair up. */
  lemma PrintedLiteralReadsBack(before: string, value: string, after: string, bs: bool)
    requires var v := Stripped(value); v != [] && (after != [] ==> after[0] != '\'')
    ensures var lit := SqlStr(Some(value));
            var t, e := before + lit + after, |before| + |lit|;
            && (QuoteEnd(t, |before|, bs, 0, |t|) == Some(e)
                <==> (EscapeString(t, |before|, 0, bs) ==> PairedUp(Stripped(value))))
            && C.LiteralEnd(t, |before| + 1) == e
            && Undoubled(t[|before| + 1..e - 1]) == Stripped(value)
  {
    var v, lit := Stripped(value), SqlStr(Some(value));
    var t, i, e := before + lit + after, |before|, |before| + |lit|;
    hide *;
    LiteralOf(value);
    PrintedStands(t, i, v, after, e, before);
    PairedUpIsRead(v);
    UndoubleDoubled(v);
    QuoteEndHere(t, i, bs);
    assert v[0..] == v;
    ReadBack(t, i + 1, v, e);
    EscapedReadBack(t, i + 1, v, 0, e);
  }

  lemma LiteralOf(value: string)
    requires Stripped(value) != []
    ensures SqlStr(Some(value)) == "'" + Doubled(Stripped(value)) + "'"
    ensures |SqlStr(Some(value))| == |Doubled(Stripped(value))| + 2
  {
  }

  lemma QuoteEndHere(t: string, i: nat, bs: bool)
    requires i < |t| && t[i] == '\''
    ensures QuoteEnd(t, i, bs, 0, |t|) == QuoteEndFrom(t, '\'', EscapeString(t, i, 0, bs), i + 1, |t|)
  {
  }

  lemma PairedUpIsRead(v: string)
    ensures EscapesNoQuote(v, 0) <==> PairedUp(v)
  {
    hide EscapesNoQuote;
    PairedIsRead(v, 0);
  }

  lemma PrintedStands(t: string, i: nat, v: string, after: string, e: nat, before: string)
    requires t == before + ("'" + Doubled(v) + "'") + after && i == |before| && e == i + |Doubled(v)| + 2
    requires after != [] ==> after[0] != '\''
    ensures i < |t| && t[i] == '\'' && Ahead(t, i + 1, v, e) && t[i + 1..e - 1] == Doubled(v)
  {
    hide Doubled;
    assert t[i + 1..e] == Doubled(v) + "'";
    assert e < |t| ==> t[e] == after[0];
    assert t[i + 1..e - 1] == t[i + 1..e][..|Doubled(v)|];
  }

  /** With a backslash in an escape string the closing quote is lost. */
  lemma BackslashLosesQuote()
    ensures QuoteEnd(SqlStr(Some("\\")), 0, true, 0, 3).None?
  {
    assert Stripped("\\") == "\\" && Doubled("\\") == "\\";
    var t := SqlStr(Some("\\"));
    assert t == "'\\'";
    assert QuoteEndFrom(t, '\'', true, 3, 3).None?;
  }
}
