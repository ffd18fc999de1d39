/** What reading a DELETE statement costs: every character outside its literals, and one for each literal. */
module MaskCosts {
  import opened HollowCondition
  import opened MaskLiterals
  import opened MaskStatement
  import opened SqlLexis
  import opened TextParts
  import opened Wrappers

  /** The characters of the texts, one for each literal, and one for what ends the statement. */
  function Looks(s: Statement): nat
    decreases |s.rest|
  {
    |s.text| + 1 + if s.rest == [] then 0 else Looks(Next(s))
  }

  /** One step of the cost, as long as a special character lies ahead. */
  lemma CostStep(t: string, from: nat, token: Option<string>, bs: bool, run: nat, i: nat, depth: nat)
    requires from <= run <= i < |t| && NextSpecial(t, i) < |t|
    ensures !IsSpecial(t[i]) ==>
              && MaskCost(t, from, token, bs, run, i, depth) == 1 + MaskCost(t, from, token, bs, run, i + 1, depth)
              && NextSpecial(t, i + 1) == NextSpecial(t, i)
    ensures IsSpecial(t[i]) ==>
              MaskCost(t, from, token, bs, run, i, depth)
              == 1 + match StepAt(t, from, token, bs, run, i, depth)
                     case Stop => 0
                     case Go(next, inside) => MaskCost(t, from, token, bs, run, next, inside)
                     case Replace(_, _, end) => MaskCost(t, from, token, bs, end, end, depth)
  {
    hide StepAt;
  }

  lemma {:induction false} SpecialAhead(t: string, i: nat, far: nat)
    requires i <= far < |t| && IsSpecial(t[far])
    ensures NextSpecial(t, i) <= far
    decreases far - i
  {
  }

  lemma {:induction false} TextCharged(t: string, from: nat, token: Option<string>, bs: bool, run: nat, p: nat,
                                       x: string, k: nat, depth: nat, i: nat, e: nat, far: nat)
    requires from <= run <= p && Part(t, p, x) && k <= |x| && PlainFrom(x, k, depth) && IsToken(token)
    requires i == p + k && e == p + |x| <= far < |t| && IsSpecial(t[far])
    ensures MaskCost(t, from, token, bs, run, i, depth)
         == |x| - k + MaskCost(t, from, token, bs, run, e, DepthAfter(x, k, depth))
    decreases |x| - k
  {
    hide MaskCost, StepAt, Part, IsToken, DelimiterFrom, PlainDollar;
    if k < |x| {
      assert t[i] == x[k] by { PartAt(t, p, x); }
      if x[k] == '$' {
        PlainDollarIn(t, p, x, k);
      }
      SpecialAhead(t, i, far);
      PlainStep(t, from, token, bs, run, i, depth);
      CostStep(t, from, token, bs, run, i, depth);
      TextCharged(t, from, token, bs, run, p, x, k + 1, DepthStep(x[k], depth), i + 1, e, far);
    }
  }

  lemma {:induction false} StatementCharged(t: string, from: nat, token: Option<string>, bs: bool, o: nat, behind: string,
                                            p: nat, s: Statement, depth: nat, stop: nat)
    requires from <= o && Begins(from, o, behind) && Part(t, o, behind + Render(s))
    requires p == o + |behind| && stop == p + |Render(s)| < |t|
    requires WellFormed(s, behind, depth, bs, token) && IsToken(token)
    requires EndsStatement(t, stop, FinalDepth(s, behind, depth, bs, token), token)
    ensures MaskCost(t, from, token, bs, p, p, depth) == Looks(s)
    decreases |s.rest|
  {
    StopIsSpecial(t, token, stop, FinalDepth(s, behind, depth, bs, token));
    if s.rest == [] {
      hide EndsStatement, IsToken, PlainFrom, DepthAfter, StepAt, MaskCost, Part;
      PartSplit(t, o, behind, Render(s), p);
      LastCharged(t, from, token, bs, p, s.text, depth, stop);
    } else {
      hide EndsStatement, IsToken, PlainFrom, DepthAfter, StepAt, MaskCost, Part, WellFormed, FinalDepth, Looks;
      var l, next, x := s.rest[0].0, Next(s), s.text;
      var i := p + |x|;
      var end := i + |Written(l)|;
      RenderSplit(t, o, behind, p, s, i, end);
      WellFormedAt(s, behind, depth, bs, token, x, l, next);
      var inside := DepthAfter(x, 0, depth);
      hide *;
      RestCharged(t, from, token, bs, l, next, inside, i, end, stop);
      LiteralCharged(t, from, token, bs, o, behind, p, x, l, depth, i, end, stop);
      LooksAt(s, x, next);
    }
  }

  lemma {:induction false} RestCharged(t: string, from: nat, token: Option<string>, bs: bool, l: Literal, next: Statement,
                                       depth: nat, i: nat, end: nat, stop: nat)
    requires from <= i && end == i + |Written(l)| && stop == end + |Render(next)| < |t|
    requires Part(t, i, Written(l)) && Part(t, end, Render(next)) && Apart(l, next) && Distinct(l, token)
    requires WellFormed(next, LastOf(l), depth, bs, token) && IsToken(token)
    requires EndsStatement(t, stop, FinalDepth(next, LastOf(l), depth, bs, token), token)
    ensures from <= end && MaskCost(t, from, token, bs, end, end, depth) == Looks(next)
    ensures l.Quoted? ==> t[end] != l.quote
    decreases |next.rest| + 1, -1
  {
    hide *;
    RestStarts(t, from, token, bs, l, next, depth, i, end, stop);
    StatementCharged(t, from, token, bs, end - 1, LastOf(l), end, next, depth, stop);
  }

  /** The last text and what ends the statement. */
  lemma LastCharged(t: string, from: nat, token: Option<string>, bs: bool, p: nat, x: string, depth: nat, stop: nat)
    requires from <= p && Part(t, p, x) && PlainFrom(x, 0, depth) && IsToken(token) && stop == p + |x| < |t|
    requires IsSpecial(t[stop]) && EndsStatement(t, stop, DepthAfter(x, 0, depth), token)
    ensures MaskCost(t, from, token, bs, p, p, depth) == |x| + 1
  {
    hide *;
    TextCharged(t, from, token, bs, p, p, x, 0, depth, p, stop, stop);
    TokenStops(t, token, stop, DepthAfter(x, 0, depth));
    SpecialAhead(t, stop, stop);
    CostStep(t, from, token, bs, p, stop, DepthAfter(x, 0, depth));
  }

  lemma LooksAt(s: Statement, x: string, next: Statement)
    requires s.rest != [] && x == s.text && next == Next(s)
    ensures Looks(s) == |x| + 1 + Looks(next)
  {
  }

  lemma StopIsSpecial(t: string, token: Option<string>, i: nat, depth: nat)
    requires i < |t| && IsToken(token) && EndsStatement(t, i, depth, token)
    ensures IsSpecial(t[i])
  {
    if token.Some? && i + |token.value| <= |t| && t[i..i + |token.value|] == token.value {
      OccursText(t, token.value, i);
      hide OccursAt;
      TokenNotEmpty(token);
      TokenStart(t, token, i);
    }
  }

  /** The text x and the literal behind it. */
  lemma LiteralCharged(t: string, from: nat, token: Option<string>, bs: bool, o: nat, behind: string, p: nat,
                       x: string, l: Literal, depth: nat, i: nat, end: nat, far: nat)
    requires from <= o && Begins(from, o, behind) && p == o + |behind| && i == p + |x| && end == i + |Written(l)| <= far
    requires Part(t, o, behind + x) && Part(t, p, x) && Part(t, i, Written(l)) && far < |t| && IsSpecial(t[far])
    requires PlainFrom(x, 0, depth) && Closed(behind, x, l, bs, token) && IsToken(token)
    requires l.Quoted? ==> t[end] != l.quote
    ensures MaskCost(t, from, token, bs, p, p, depth)
         == |x| + 1 + MaskCost(t, from, token, bs, end, end, DepthAfter(x, 0, depth))
  {
    hide *;
    var inside := DepthAfter(x, 0, depth);
    StepAtLiteral(t, from, token, bs, o, behind, x, p, i, l, inside);
    TextCharged(t, from, token, bs, p, p, x, 0, depth, p, i, far);
    SpecialAhead(t, i, far);
    CostStep(t, from, token, bs, p, i, inside);
    ReplacedIsSpecial(t, from, token, bs, p, i, inside);
  }

  lemma ReplacedIsSpecial(t: string, from: nat, token: Option<string>, bs: bool, run: nat, i: nat, depth: nat)
    requires from <= run <= i < |t| && StepAt(t, from, token, bs, run, i, depth).Replace?
    ensures IsSpecial(t[i])
  {
  }

  /** Reading a statement with closed literals, up to what ends it, costs its characters outside literals, one
      for each literal and one for what ends it. */
  lemma StatementCost(s: Statement, before: string, after: string, bs: bool, token: Option<string>)
    requires InContext(s, before, after, bs, token) && after != ""
    ensures MaskCost(before + Render(s) + after, |before|, token, bs, |before|, |before|, 0) == Looks(s)
  {
    var t := before + Render(s) + after;
    assert [] + Render(s) == Render(s);
    assert Part(t, |before|, Render(s));
    hide MaskCost, WellFormed, EndsStatement, Part;
    StatementCharged(t, |before|, token, bs, |before|, [], |before|, s, 0, |before + Render(s)|);
  }
}
