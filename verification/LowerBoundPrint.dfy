/** The lower bound reader on DELETE statements put together from words, literals and groups in parentheses. */
module LowerBoundPrint {
  import opened LowerBoundScan
  import opened LowerBoundStrip
  import opened MaskStatement
  import opened Numbers
  import opened QuoteText
  import opened SqlLexis
  import opened StripLaws
  import opened TextParts
  import opened Wrappers

  datatype Piece =
    | Words(x: string)
    | Quoted(prefix: string, quote: char, signs: seq<Sign>)
    | Dollar(tag: string, raw: string)
    | Group(inner: seq<Piece>)

  function Shown(p: Piece): string
    decreases p, 0
  {
    match p
    case Words(x) => x
    case Quoted(prefix, q, signs) => prefix + ([q] + Closing(signs, q))
    case Dollar(tag, raw) => Delimiter(tag) + (raw + Delimiter(tag))
    case Group(inner) => "(" + (ShownAll(inner) + ")")
  }

  function ShownAll(ps: seq<Piece>): string
    decreases ps, 1
  {
    if ps == [] then "" else Shown(ps[0]) + ShownAll(ps[1..])
  }

  /** Words stay, literals leave a mark, groups leave a numbered one and are put aside. */
  function Added(out: Outer, p: Piece): Outer {
    match p
    case Words(x) => Outer(out.outside + x, out.groups)
    case Quoted(prefix, q, _) => Outer(out.outside + (prefix + if q == '"' then " ident " else " 0 "), out.groups)
    case Dollar(_, _) => Outer(out.outside + " 0 ", out.groups)
    case Group(inner) =>
      Outer(out.outside + (" (grp" + Decimal(|out.groups|) + ") "), out.groups + [ShownAll(inner)])
  }

  function AddedAll(out: Outer, ps: seq<Piece>): Outer
    decreases |ps|
  {
    if ps == [] then out else AddedAll(Added(out, ps[0]), ps[1..])
  }

  // ----- which statements are meant -----

  /** Nothing that ends, opens or closes, no quote, and no dollar sign but inside a name. */
  predicate ArePlain(x: string) { forall k :: 0 <= k < |x| ==> IsPlain(x, k) }

  predicate IsPlain(x: string, k: nat)
    requires k < |x|
  {
    && x[k] != ';' && x[k] != '(' && x[k] != ')' && x[k] != '\'' && x[k] != '"'
    && (x[k] == '$' ==> k > 0 && IdentChar(x[k - 1]))
  }

  ghost predicate Fits(p: Piece, r: string)
    decreases p, 0
  {
    Shown(p) != "" && Apart(Shown(p), r) &&
    match p
    case Words(x) => ArePlain(x)
    case Quoted(prefix, q, signs) =>
      && IsQuote(q) && ArePlain(prefix) && Spelled(signs, q == '\'' && EndsInE(prefix)) && (r != "" ==> r[0] != q)
    case Dollar(tag, raw) =>
      IsTag(tag) && OnlyAtEnd(raw, Delimiter(tag))
    case Group(inner) => FitAll(inner, ")" + r)
  }

  /** The parts, with r behind them. */
  ghost predicate FitAll(ps: seq<Piece>, r: string)
    decreases ps, 1
  {
    ps != [] ==> Fits(ps[0], ShownAll(ps[1..]) + r) && FitAll(ps[1..], r)
  }

  /** The token does not occur from i up to e. */
  ghost predicate NoToken(t: string, token: Option<string>, i: nat, e: nat) {
    forall k :: i <= k < e ==> !StopsAt(t, token, k)
  }

  // ----- one look -----

  lemma {:induction false} WordsScanned(t: string, token: Option<string>, i: nat, x: string, k: nat, e: nat,
                                        depth: nat, start: nat, out: Outer)
    requires e == i + |x| <= |t| && Part(t, i, x) && ArePlain(x) && NoToken(t, token, i, e) && k <= |x|
    requires depth > 0 ==> start <= i
    ensures Scan(t, token, i + k, depth, start, out) == Scan(t, token, e, depth, start, Keep(out, depth, x[k..]))
    decreases |x| - k
  {
    hide LookAt, Part, ArePlain, NoToken, Scan;
    if k == |x| {
      assert x[k..] == "" && out.outside + "" == out.outside;
    } else {
      WordLook(t, token, i, x, k, e, depth);
      CopyScanned(t, token, i + k, x[k], depth, start, out);
      WordsScanned(t, token, i, x, k + 1, e, depth, start, Keep(out, depth, [x[k]]));
      KeptTwice(out, depth, x, k);
    }
  }

  lemma CopyScanned(t: string, token: Option<string>, i: nat, c: char, depth: nat, start: nat, out: Outer)
    requires i < |t| && LookAt(t, token, i, depth) == Copy(c) && (depth > 0 ==> start <= i)
    ensures Scan(t, token, i, depth, start, out) == Scan(t, token, i + 1, depth, start, Keep(out, depth, [c]))
  {
    hide LookAt, Keep;
  }

  lemma KeptTwice(out: Outer, depth: nat, x: string, k: nat)
    requires k < |x|
    ensures Keep(Keep(out, depth, [x[k]]), depth, x[k + 1..]) == Keep(out, depth, x[k..])
  {
    assert x[k..] == [x[k]] + x[k + 1..];
    assert out.outside + ([x[k]] + x[k + 1..]) == out.outside + [x[k]] + x[k + 1..];
  }

  lemma WordLook(t: string, token: Option<string>, i: nat, x: string, k: nat, e: nat, depth: nat)
    requires e == i + |x| <= |t| && Part(t, i, x) && ArePlain(x) && NoToken(t, token, i, e) && k < |x|
    ensures LookAt(t, token, i + k, depth) == Copy(x[k])
  {
    PartAt(t, i, x);
    assert !StopsAt(t, token, i + k);
    assert t[i + k] == x[k] && (k > 0 ==> t[i + (k - 1)] == x[k - 1]);
    assert IsPlain(x, k);
    hide QuoteEnd, FirstOccurrence, DelimiterAt, StopsAt, IdentChar;
  }

  lemma QuoteLook(t: string, token: Option<string>, i: nat, prefix: string, q: char, signs: seq<Sign>, e: nat, depth: nat)
    requires i + |prefix| < e <= |t| && Part(t, i, prefix + ([q] + Closing(signs, q)))
    requires e == i + |prefix| + 1 + |Closing(signs, q)| && !StopsAt(t, token, i + |prefix|)
    requires IsQuote(q) && Spelled(signs, q == '\'' && EndsInE(prefix)) && (e < |t| ==> t[e] != q)
    requires Apart(t[..i], t[i..])
    ensures LookAt(t, token, i + |prefix|, depth) == Over(e, if q == '"' then " ident " else " 0 ")
  {
    var n, esc := i + |prefix|, q == '\'' && EndsInE(prefix);
    var tail := [q] + Closing(signs, q);
    PartSplit(t, i, prefix, tail, n);
    PartSplit(t, n, [q], Closing(signs, q), n + 1);
    assert t[n] == q by { assert t[n + 0] == [q][0]; }
    assert t[n + 1..e] == Closing(signs, q);
    EscapeBehind(t, i, prefix, n);
    hide Part, Closing, EndsInE;
    ReadsClosing(t, q, esc, n + 1, e, |t|, signs);
    hide QuoteEndFrom, FirstOccurrence, DelimiterFrom, StopsAt;
  }

  lemma EscapeBehind(t: string, i: nat, prefix: string, n: nat)
    requires n == i + |prefix| < |t| && Part(t, i, prefix) && Apart(t[..i], t[i..])
    ensures EscapeString(t, n, 0, false) <==> t[n] == '\'' && EndsInE(prefix)
  {
    PartAt(t, i, prefix);
    var m := |prefix|;
    assert m > 0 ==> t[i + (m - 1)] == prefix[m - 1];
    assert m > 1 ==> t[i + (m - 2)] == prefix[m - 2];
    assert t[i..][0] == t[i] && (i > 0 ==> t[..i][i - 1] == t[i - 1]);
  }

  lemma DollarLook(t: string, token: Option<string>, i: nat, tag: string, raw: string, e: nat, depth: nat)
    requires IsTag(tag) && Part(t, i, Delimiter(tag) + (raw + Delimiter(tag))) && Apart(t[..i], t[i..])
    requires e == i + |Delimiter(tag) + (raw + Delimiter(tag))| && i < |t| && !StopsAt(t, token, i)
    requires OnlyAtEnd(raw, Delimiter(tag))
    ensures e <= |t| && LookAt(t, token, i, depth) == Over(e, " 0 ")
  {
    var d := Delimiter(tag);
    DelimiterSigns(tag);
    hide *;
    DollarHere(t, i, d, raw);
    DelimiterRead(t, i, tag);
    BodyEnds(t, i + |d|, raw, d);
    OverDollar(t, token, i, d, i + |d| + |raw|, depth);
  }

  lemma OverDollar(t: string, token: Option<string>, i: nat, d: string, close: nat, depth: nat)
    requires i < |t| && t[i] == '$' && (i > 0 ==> !IdentChar(t[i - 1])) && !StopsAt(t, token, i) && i + |d| <= |t|
    requires DelimiterFrom(t, i) == Some(d) && FirstOccurrence(t, d, i + |d|, |t|) == Some(close)
    ensures close + |d| <= |t| && LookAt(t, token, i, depth) == Over(close + |d|, " 0 ")
  {
    hide DelimiterFrom, FirstOccurrence, QuoteEnd, StopsAt, IdentChar;
  }

  // ----- the reading -----

  /** What is outside parentheses is added, what is inside is not. */
  function AddedAt(out: Outer, ps: seq<Piece>, depth: nat): Outer {
    if depth == 0 then AddedAll(out, ps) else out
  }

  /** Over a literal, or any look that leaves only its mark. */
  lemma OverScanned(t: string, token: Option<string>, i: nat, n: nat, mark: string, depth: nat, start: nat, out: Outer)
    requires i < |t| && LookAt(t, token, i, depth) == Over(n, mark) && (depth > 0 ==> start <= i)
    ensures n <= |t| && Scan(t, token, i, depth, start, out) == Scan(t, token, n, depth, start, Keep(out, depth, mark))
  {
    hide LookAt, Keep;
  }

  lemma {:induction false} PieceScanned(t: string, token: Option<string>, i: nat, p: Piece, r: string, e: nat,
                                        depth: nat, start: nat, out: Outer)
    requires Part(t, i, Shown(p)) && e == i + |Shown(p)| <= |t| && t[e..] == r && Fits(p, r) && NoToken(t, token, i, e)
    requires Apart(t[..i], t[i..]) && (depth > 0 ==> start <= i)
    ensures Scan(t, token, i, depth, start, out)
         == Scan(t, token, e, depth, start, if depth == 0 then Added(out, p) else out)
    decreases p, 0
  {
    match p
    case Words(x) =>
      assert x[0..] == x;
      WordsScanned(t, token, i, x, 0, e, depth, start, out);
    case Quoted(prefix, q, signs) =>
      QuotedScanned(t, token, i, prefix, q, signs, r, e, depth, start, out);
    case Dollar(tag, raw) =>
      assert !StopsAt(t, token, i);
      DollarLook(t, token, i, tag, raw, e, depth);
      OverScanned(t, token, i, e, " 0 ", depth, start, out);
    case Group(inner) =>
      GroupScanned(t, token, i, inner, r, e, depth, start, out);
  }

  lemma QuotedScanned(t: string, token: Option<string>, i: nat, prefix: string, q: char, signs: seq<Sign>, r: string, e: nat,
                      depth: nat, start: nat, out: Outer)
    requires Part(t, i, prefix + ([q] + Closing(signs, q))) && e == i + |prefix + ([q] + Closing(signs, q))| <= |t|
    requires t[e..] == r && Fits(Quoted(prefix, q, signs), r) && NoToken(t, token, i, e)
    requires Apart(t[..i], t[i..]) && (depth > 0 ==> start <= i)
    ensures Scan(t, token, i, depth, start, out)
         == Scan(t, token, e, depth, start, if depth == 0 then Added(out, Quoted(prefix, q, signs)) else out)
  {
    hide LookAt, Scan, Part, ArePlain, Closing, Spelled, StopsAt, Keep;
    var n, mark := i + |prefix|, if q == '"' then " ident " else " 0 ";
    assert !StopsAt(t, token, n);
    assert e < |t| ==> t[e] == t[e..][0] == r[0];
    QuoteLook(t, token, i, prefix, q, signs, e, depth);
    PartSplit(t, i, prefix, [q] + Closing(signs, q), n);
    assert NoToken(t, token, i, n) && prefix[0..] == prefix;
    hide NoToken, Apart;
    WordsScanned(t, token, i, prefix, 0, n, depth, start, out);
    OverScanned(t, token, n, e, mark, depth, start, Keep(out, depth, prefix));
    QuotedAdded(out, depth, prefix, q, signs);
  }

  lemma QuotedAdded(out: Outer, depth: nat, prefix: string, q: char, signs: seq<Sign>)
    ensures Keep(Keep(out, depth, prefix), depth, if q == '"' then " ident " else " 0 ")
         == if depth == 0 then Added(out, Quoted(prefix, q, signs)) else out
  {
    var mark := if q == '"' then " ident " else " 0 ";
    assert out.outside + prefix + mark == out.outside + (prefix + mark);
  }

  lemma {:induction false} GroupScanned(t: string, token: Option<string>, i: nat, inner: seq<Piece>, r: string, e: nat,
                                        depth: nat, start: nat, out: Outer)
    requires Part(t, i, "(" + (ShownAll(inner) + ")")) && e == i + |ShownAll(inner)| + 2 <= |t| && t[e..] == r
    requires FitAll(inner, ")" + r) && NoToken(t, token, i, e) && (depth > 0 ==> start <= i)
    ensures Scan(t, token, i, depth, start, out)
         == Scan(t, token, e, depth, start, if depth == 0 then Added(out, Group(inner)) else out)
    decreases inner, 2
  {
    hide Shown, FitAll, Scan, LookAt, GroupMark, Delimiter;
    var u := ShownAll(inner);
    var from := if depth == 0 then i + 1 else start;
    var begun := Keep(out, depth, " " + GroupMark(|out.groups|) + " ");
    PartSplit(t, i, "(", u + ")", i + 1);
    PartSplit(t, i + 1, u, ")", e - 1);
    assert t[i + 1..e - 1] == u;
    Parentheses(t, token, i, u, r, e);
    hide Part, NoToken, ShownAll, Apart, AddedAll, StopsAt;
    OpenScanned(t, token, i, depth, start, out);
    PiecesScanned(t, token, i + 1, inner, ")" + r, e - 1, depth + 1, from, begun);
    CloseScanned(t, token, e - 1, depth + 1, from, begun);
    if depth == 0 {
      GroupAdded(out, inner, u);
      assert t[from..e - 1] == u;
      AnyStart(t, token, e, from, start, Added(out, Group(inner)));
    }
  }

  /** Outside groups it does not matter where the last one began. */
  lemma {:induction false} AnyStart(t: string, token: Option<string>, i: nat, a: nat, b: nat, out: Outer)
    requires i <= |t|
    ensures Scan(t, token, i, 0, a, out) == Scan(t, token, i, 0, b, out)
    decreases |t| - i
  {
    hide GroupMark, LookAt;
    if i < |t| {
      match LookAt(t, token, i, 0)
      case Over(next, mark) => AnyStart(t, token, next, a, b, Keep(out, 0, mark));
      case Copy(c) => AnyStart(t, token, i + 1, a, b, Keep(out, 0, [c]));
      case _ =>
    }
  }

  lemma GroupAdded(out: Outer, inner: seq<Piece>, u: string)
    requires u == ShownAll(inner)
    ensures PutAside(Keep(out, 0, " " + GroupMark(|out.groups|) + " "), u) == Added(out, Group(inner))
  {
    hide GroupMark, ShownAll;
    MarkText(|out.groups|);
  }

  lemma MarkText(n: nat)
    ensures " " + GroupMark(n) + " " == " (grp" + Decimal(n) + ") "
  {
    var m := GroupMark(n);
    assert m == "(grp" + (Decimal(n) + ")");
  }

  lemma Parentheses(t: string, token: Option<string>, i: nat, u: string, r: string, e: nat)
    requires i + 1 < e == i + |u| + 2 <= |t| && t[e..] == r && NoToken(t, token, i, e)
    requires Part(t, i, "(") && Part(t, e - 1, ")")
    ensures t[i] == '(' && t[e - 1] == ')' && !StopsAt(t, token, i) && !StopsAt(t, token, e - 1)
    ensures NoToken(t, token, i + 1, e - 1) && t[e - 1..] == ")" + r && Apart(t[..i + 1], t[i + 1..])
  {
    hide StopsAt;
    var open, close := "(", ")";
    assert t[i + 0] == open[0] && t[e - 1 + 0] == close[0];
    assert t[..i + 1][i] == '(';
  }

  lemma OpenScanned(t: string, token: Option<string>, i: nat, depth: nat, start: nat, out: Outer)
    requires i < |t| && t[i] == '(' && !StopsAt(t, token, i) && (depth > 0 ==> start <= i)
    ensures Scan(t, token, i, depth, start, out)
         == Scan(t, token, i + 1, depth + 1, if depth == 0 then i + 1 else start,
                 Keep(out, depth, " " + GroupMark(|out.groups|) + " "))
  {
    hide GroupMark, StopsAt, QuoteEnd, FirstOccurrence, DelimiterFrom;
  }

  lemma CloseScanned(t: string, token: Option<string>, i: nat, depth: nat, start: nat, out: Outer)
    requires i < |t| && t[i] == ')' && !StopsAt(t, token, i) && depth > 0 && start <= i
    ensures Scan(t, token, i, depth, start, out)
         == Scan(t, token, i + 1, depth - 1, start, if depth == 1 then PutAside(out, t[start..i]) else out)
  {
    hide GroupMark, StopsAt, QuoteEnd, FirstOccurrence, DelimiterFrom;
  }

  lemma {:induction false} PiecesScanned(t: string, token: Option<string>, i: nat, ps: seq<Piece>, r: string, e: nat,
                                         depth: nat, start: nat, out: Outer)
    requires Part(t, i, ShownAll(ps)) && e == i + |ShownAll(ps)| <= |t| && t[e..] == r && FitAll(ps, r)
    requires NoToken(t, token, i, e) && Apart(t[..i], t[i..]) && (depth > 0 ==> start <= i)
    ensures Scan(t, token, i, depth, start, out) == Scan(t, token, e, depth, start, AddedAt(out, ps, depth))
    decreases ps, 1
  {
    if ps != [] {
      var w, rest := Shown(ps[0]), ShownAll(ps[1..]);
      var n := i + |w|;
      PartSplit(t, i, w, rest, n);
      assert t[n..] == rest + r by { assert t[n..e] == rest; }
      assert NoToken(t, token, i, n) && NoToken(t, token, n, e) by { hide StopsAt; }
      ApartMoved(t, i, w, n);
      PieceScanned(t, token, i, ps[0], rest + r, n, depth, start, out);
      PiecesScanned(t, token, n, ps[1..], r, e, depth, start, if depth == 0 then Added(out, ps[0]) else out);
    }
  }

  lemma ApartMoved(t: string, i: nat, w: string, n: nat)
    requires w != "" && n == i + |w| <= |t| && Part(t, i, w) && Apart(w, t[n..])
    ensures Apart(t[..n], t[n..])
  {
    PartAt(t, i, w);
    assert t[i + (|w| - 1)] == w[|w| - 1];
  }

  /** Read are the words of the statement, with a mark for each literal and a numbered one for each group,
      and the groups as they are written. */
  lemma StatementScanned(t: string, token: Option<string>, from: nat, ps: seq<Piece>, e: nat)
    requires from <= e <= |t| && t[from..e] == ShownAll(ps) && FitAll(ps, t[e..]) && Apart(t[..from], t[from..])
    requires NoToken(t, token, from, e) && (e < |t| ==> t[e] == ';' || t[e] == ')' || StopsAt(t, token, e))
    ensures ScanFrom(t, token, from) == AddedAll(Outer("", []), ps)
  {
    var out := Outer("", []);
    assert Part(t, from, ShownAll(ps));
    PiecesScanned(t, token, from, ps, t[e..], e, 0, 0, out);
    hide StopsAt, FitAll, ShownAll, NoToken;
    if e < |t| {
      assert LookAt(t, token, e, 0).Halt?;
    }
  }

  // ----- what it costs -----

  /** A step for every character outside literals, one for each literal, and the way through it. */
  function Charge(p: Piece): nat
    decreases p, 0
  {
    match p
    case Words(x) => |x|
    case Quoted(prefix, q, signs) => |prefix| + |Inside(signs, q)| + 2
    case Dollar(tag, raw) => 1 + |Delimiter(tag)| + |raw|
    case Group(inner) => 2 + ChargeAll(inner)
  }

  function ChargeAll(ps: seq<Piece>): nat
    decreases ps, 1
  {
    if ps == [] then 0 else Charge(ps[0]) + ChargeAll(ps[1..])
  }

  lemma CostAt(t: string, token: Option<string>, i: nat, depth: nat)
    requires i < |t|
    ensures ScanCost(t, token, i, depth) == 1 + LookCost(t, token, i) +
            match LookAt(t, token, i, depth)
            case Halt => 0
            case Open => ScanCost(t, token, i + 1, depth + 1)
            case Close => ScanCost(t, token, i + 1, depth - 1)
            case Over(next, _) => ScanCost(t, token, next, depth)
            case Copy(_) => ScanCost(t, token, i + 1, depth)
  {
    hide LookAt, LookCost;
  }

  /** Looking at a character that starts no literal costs the step alone. */
  lemma FreeLook(t: string, token: Option<string>, i: nat)
    requires i < |t| && !IsQuote(t[i]) && (t[i] == '$' ==> i > 0 && IdentChar(t[i - 1]))
    ensures LookCost(t, token, i) == 0
  {
    hide QuoteCost, DelimiterFrom, FirstOccurrence, StopsAt, IdentChar;
  }

  lemma {:induction false} WordsCharged(t: string, token: Option<string>, i: nat, x: string, k: nat, e: nat, depth: nat)
    requires e == i + |x| <= |t| && Part(t, i, x) && ArePlain(x) && NoToken(t, token, i, e) && k <= |x|
    ensures ScanCost(t, token, i + k, depth) == |x| - k + ScanCost(t, token, e, depth)
    decreases |x| - k
  {
    if k < |x| {
      PartAt(t, i, x);
      assert IsPlain(x, k) && t[i + k] == x[k] && (k > 0 ==> t[i + (k - 1)] == x[k - 1]);
      FreeLook(t, token, i + k);
      hide *;
      WordLook(t, token, i, x, k, e, depth);
      CostAt(t, token, i + k, depth);
      WordsCharged(t, token, i, x, k + 1, e, depth);
    }
  }

  lemma QuotedCharged(t: string, token: Option<string>, i: nat, prefix: string, q: char, signs: seq<Sign>, r: string, e: nat,
                      depth: nat)
    requires Part(t, i, prefix + ([q] + Closing(signs, q))) && e == i + |prefix + ([q] + Closing(signs, q))| <= |t|
    requires t[e..] == r && Fits(Quoted(prefix, q, signs), r) && NoToken(t, token, i, e) && Apart(t[..i], t[i..])
    ensures ScanCost(t, token, i, depth) == |prefix| + |Inside(signs, q)| + 2 + ScanCost(t, token, e, depth)
  {
    hide LookAt, ScanCost, Part, ArePlain, Spelled, StopsAt, LookCost;
    var n := i + |prefix|;
    assert !StopsAt(t, token, n);
    assert e < |t| ==> t[e] == t[e..][0] == r[0];
    QuoteLook(t, token, i, prefix, q, signs, e, depth);
    PartSplit(t, i, prefix, [q] + Closing(signs, q), n);
    assert NoToken(t, token, i, n);
    QuoteLookCost(t, token, i, prefix, q, signs, e, depth);
    hide NoToken, Apart;
    WordsCharged(t, token, i, prefix, 0, n, depth);
    CostAt(t, token, n, depth);
  }

  lemma QuoteLookCost(t: string, token: Option<string>, i: nat, prefix: string, q: char, signs: seq<Sign>, e: nat, depth: nat)
    requires i + |prefix| < e <= |t| && !StopsAt(t, token, i + |prefix|)
    requires Part(t, i, prefix + ([q] + Closing(signs, q))) && IsQuote(q)
    requires LookAt(t, token, i + |prefix|, depth).Over? && LookAt(t, token, i + |prefix|, depth).next == e
    requires e == i + |prefix| + 1 + |Closing(signs, q)| && (e < |t| ==> t[e] != q)
    requires Spelled(signs, q == '\'' && EndsInE(prefix)) && Apart(t[..i], t[i..])
    ensures LookCost(t, token, i + |prefix|) == |Inside(signs, q)| + 1
  {
    var n, esc := i + |prefix|, q == '\'' && EndsInE(prefix);
    PartSplit(t, i, prefix, [q] + Closing(signs, q), n);
    PartSplit(t, n, [q], Closing(signs, q), n + 1);
    assert t[n] == q by { assert t[n + 0] == [q][0]; }
    assert t[n + 1..e] == Closing(signs, q);
    EscapeBehind(t, i, prefix, n);
    hide Part, EndsInE, LookAt;
    ReadsClosing(t, q, esc, n + 1, e, |t|, signs);
    QuoteLeft(t, token, n, e);
  }

  lemma QuoteLeft(t: string, token: Option<string>, n: nat, e: nat)
    requires n < |t| && IsQuote(t[n]) && !StopsAt(t, token, n) && QuoteEnd(t, n, false, 0, |t|) == Some(e)
    ensures n + 1 < e && LookCost(t, token, n) == e - n - 1
  {
    hide QuoteEndFrom, EscapeString, StopsAt;
  }

  lemma DollarCharged(t: string, token: Option<string>, i: nat, tag: string, raw: string, e: nat, depth: nat)
    requires IsTag(tag) && Part(t, i, Delimiter(tag) + (raw + Delimiter(tag))) && Apart(t[..i], t[i..])
    requires e == i + |Delimiter(tag) + (raw + Delimiter(tag))| && i < |t| && !StopsAt(t, token, i)
    requires OnlyAtEnd(raw, Delimiter(tag))
    ensures e <= |t| && ScanCost(t, token, i, depth) == 1 + |Delimiter(tag)| + |raw| + ScanCost(t, token, e, depth)
  {
    hide *;
    var d := Delimiter(tag);
    DelimiterSigns(tag);
    DollarHere(t, i, d, raw);
    DelimiterRead(t, i, tag);
    BodyEnds(t, i + |d|, raw, d);
    DollarLook(t, token, i, tag, raw, e, depth);
    DollarLeft(t, token, i, d, i + |d| + |raw|);
    CostAt(t, token, i, depth);
  }

  lemma DollarHere(t: string, i: nat, d: string, raw: string)
    requires Part(t, i, d + (raw + d)) && d != "" && d[0] == '$' && i < |t| && Apart(t[..i], t[i..])
    ensures t[i] == '$' && i + |d| <= |t| && t[i..i + |d|] == d && Part(t, i + |d|, raw + d)
    ensures i > 0 ==> !IdentChar(t[i - 1])
  {
    PartSplit(t, i, d, raw + d, i + |d|);
    assert t[i] == '$' by { assert t[i + 0] == d[0]; }
    assert t[i..i + |d|] == d;
    assert t[i..][0] == t[i] && (i > 0 ==> t[..i][i - 1] == t[i - 1]);
  }

  lemma DollarLeft(t: string, token: Option<string>, i: nat, d: string, close: nat)
    requires i < |t| && t[i] == '$' && (i > 0 ==> !IdentChar(t[i - 1])) && !StopsAt(t, token, i) && i + |d| <= |t|
    requires DelimiterFrom(t, i) == Some(d) && FirstOccurrence(t, d, i + |d|, |t|) == Some(close)
    ensures LookCost(t, token, i) == close - i
  {
    hide DelimiterFrom, FirstOccurrence, StopsAt, IdentChar, QuoteCost;
  }

  lemma {:induction false} PieceCharged(t: string, token: Option<string>, i: nat, p: Piece, r: string, e: nat, depth: nat)
    requires Part(t, i, Shown(p)) && e == i + |Shown(p)| <= |t| && t[e..] == r && Fits(p, r) && NoToken(t, token, i, e)
    requires Apart(t[..i], t[i..])
    ensures ScanCost(t, token, i, depth) == Charge(p) + ScanCost(t, token, e, depth)
    decreases p, 0
  {
    match p
    case Words(x) => WordsCharged(t, token, i, x, 0, e, depth);
    case Quoted(prefix, q, signs) => QuotedCharged(t, token, i, prefix, q, signs, r, e, depth);
    case Dollar(tag, raw) =>
      assert !StopsAt(t, token, i);
      DollarCharged(t, token, i, tag, raw, e, depth);
    case Group(inner) => GroupCharged(t, token, i, inner, r, e, depth);
  }

  lemma {:induction false} GroupCharged(t: string, token: Option<string>, i: nat, inner: seq<Piece>, r: string, e: nat, depth: nat)
    requires Part(t, i, "(" + (ShownAll(inner) + ")")) && e == i + |ShownAll(inner)| + 2 <= |t| && t[e..] == r
    requires FitAll(inner, ")" + r) && NoToken(t, token, i, e)
    ensures ScanCost(t, token, i, depth) == 2 + ChargeAll(inner) + ScanCost(t, token, e, depth)
    decreases inner, 2
  {
    hide *;
    var u := ShownAll(inner);
    PartSplit(t, i, "(", u + ")", i + 1);
    PartSplit(t, i + 1, u, ")", e - 1);
    Parentheses(t, token, i, u, r, e);
    PiecesCharged(t, token, i + 1, inner, ")" + r, e - 1, depth + 1);
    ParenthesisLook(t, token, i, depth);
    ParenthesisLook(t, token, e - 1, depth + 1);
    CostAt(t, token, i, depth);
    CostAt(t, token, e - 1, depth + 1);
  }

  lemma ParenthesisLook(t: string, token: Option<string>, i: nat, depth: nat)
    requires i < |t| && (t[i] == '(' || (t[i] == ')' && depth > 0)) && !StopsAt(t, token, i)
    ensures LookCost(t, token, i) == 0 && LookAt(t, token, i, depth) == if t[i] == '(' then Open else Close
  {
    hide StopsAt, QuoteEnd, FirstOccurrence, DelimiterFrom, QuoteCost;
  }

  lemma {:induction false} PiecesCharged(t: string, token: Option<string>, i: nat, ps: seq<Piece>, r: string, e: nat, depth: nat)
    requires Part(t, i, ShownAll(ps)) && e == i + |ShownAll(ps)| <= |t| && t[e..] == r && FitAll(ps, r)
    requires NoToken(t, token, i, e) && Apart(t[..i], t[i..])
    ensures ScanCost(t, token, i, depth) == ChargeAll(ps) + ScanCost(t, token, e, depth)
    decreases ps, 1
  {
    if ps != [] {
      var w, rest := Shown(ps[0]), ShownAll(ps[1..]);
      var n := i + |w|;
      PartSplit(t, i, w, rest, n);
      assert t[n..] == rest + r by { assert t[n..e] == rest; }
      assert NoToken(t, token, i, n) && NoToken(t, token, n, e) by { hide StopsAt; }
      ApartMoved(t, i, w, n);
      PieceCharged(t, token, i, ps[0], rest + r, n, depth);
      PiecesCharged(t, token, n, ps[1..], r, e, depth);
    }
  }

  /** The reading costs what its parts cost, and a step for what ends the statement. */
  lemma StatementCharged(t: string, token: Option<string>, from: nat, ps: seq<Piece>, e: nat)
    requires from <= e <= |t| && t[from..e] == ShownAll(ps) && FitAll(ps, t[e..]) && Apart(t[..from], t[from..])
    requires NoToken(t, token, from, e) && (e < |t| ==> t[e] == ';' || t[e] == ')' || StopsAt(t, token, e))
    ensures ScanCost(t, token, from, 0) == ChargeAll(ps) + if e < |t| then 1 else 0
  {
    assert Part(t, from, ShownAll(ps));
    PiecesCharged(t, token, from, ps, t[e..], e, 0);
    hide FitAll, ShownAll, NoToken, Apart, Part;
    if e < |t| {
      HaltLook(t, token, e);
      CostAt(t, token, e, 0);
    }
  }

  lemma HaltLook(t: string, token: Option<string>, e: nat)
    requires e < |t| && (t[e] == ';' || t[e] == ')' || StopsAt(t, token, e))
    ensures LookAt(t, token, e, 0).Halt? && LookCost(t, token, e) == 0
  {
    hide StopsAt, QuoteEnd, FirstOccurrence, DelimiterFrom, QuoteCost;
  }
}
