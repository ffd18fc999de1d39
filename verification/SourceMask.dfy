/** A copy of a source text, of the same length, with comments blanked and the
    insides of strings replaced. */
module SourceMask {
  import opened JavaScriptText
  import opened Wrappers
  import opened SqlLexis
  import opened Templates

  predicate IsNameChar(c: char) { AsciiLetter(c) || '0' <= c <= '9' || c == '_' || c == '$' }

  const PRECEDING_CHARS := "(,=:?[{}+-*/%!&|^~;<>"

  const PRECEDING_WORDS: seq<string> :=
    ["return", "typeof", "case", "in", "of", "void", "yield", "await", "delete", "else", "throw"]

  function LastNonSpace(m: string): Option<nat> {
    if m == [] then None
    else if IsSpace(m[|m| - 1]) then LastNonSpace(m[..|m| - 1])
    else Some(|m| - 1)
  }

  function NameStart(m: string, w: nat): nat {
    if w > 0 && w <= |m| && IsNameChar(m[w - 1]) then NameStart(m, w - 1) else w
  }

  /** Behind the masked text m a quote may open a string. */
  predicate CanStartString(m: string) {
    var p := LastNonSpace(m);
    || p.None?
    || (p.value < |m|
        && (|| m[p.value] in PRECEDING_CHARS
            || (IsNameChar(m[p.value])
                && var w := NameStart(m, p.value);
                   w <= p.value && m[w..p.value + 1] in PRECEDING_WORDS)))
  }

  predicate IsLineBreak(c: char) { c == '\n' || c == '\r' || c == '\U{2028}' || c == '\U{2029}' }

  /** Where a string quoted with q ends, reading from j; strings do not run over lines. */
  function StringEnd(c: string, j: nat, q: char): (r: Option<nat>)
    ensures r.Some? ==> j < r.value <= |c| && c[r.value - 1] == q
    decreases |c| - j
  {
    if j >= |c| || c[j] == '\n' then None
    else if c[j] == q then Some(j + 1)
    else if c[j] == '\\' then
      if j + 1 < |c| && !IsLineBreak(c[j + 1]) then StringEnd(c, j + 2, q) else None
    else StringEnd(c, j + 1, q)
  }

  /** The end of the comment, string or backtick that the token pattern matches at i. */
  function TokenEnd(c: string, i: nat): (r: Option<nat>)
    requires i < |c|
    ensures r.Some? ==> i < r.value <= |c|
    ensures r.Some? && IsQuote(c[i]) ==> i + 1 < r.value
  {
    if c[i] == '/' && i + 1 < |c| && c[i + 1] == '*' then
      var close := FirstOccurrence(c, "*/", i + 2, |c|);
      if close.Some? then Some(close.value + 2) else None
    else if c[i] == '/' && i + 1 < |c| && c[i + 1] == '/' then Some(LineStop(c, i + 2))
    else if IsQuote(c[i]) then StringEnd(c, i + 1, c[i])
    else if c[i] == '`' then Some(i + 1)
    else None
  }

  /** The next match of the token pattern, or the length of the text. */
  function NextToken(c: string, i: nat): (r: nat)
    requires i <= |c|
    ensures i <= r <= |c| && (r < |c| ==> TokenEnd(c, r).Some?) && forall k :: i <= k < r ==> TokenEnd(c, k).None?
    decreases |c| - i
  {
    if i < |c| && TokenEnd(c, i).None? then NextToken(c, i + 1) else i
  }

  datatype StringLiteral = StringLiteral(start: nat, end: nat, value: string, quote: char)

  // ----- what a mask is -----

  datatype Region = Region(start: nat, end: nat, isString: bool)

  ghost predicate Covers(regions: seq<Region>, k: nat) {
    exists j :: 0 <= j < |regions| && regions[j].start <= k < regions[j].end
  }

  /** The region is a whole comment or a whole string of the text. */
  ghost predicate IsToken(c: string, r: Region) {
    && r.start < r.end <= |c|
    && if c[r.start] == '/' then !r.isString && TokenEnd(c, r.start) == Some(r.end)
       else
         && r.isString && r.start + 1 < r.end
         && (if c[r.start] == '`' then TemplateEnd(c, r.start) == Some(r.end)
             else IsQuote(c[r.start]) && TokenEnd(c, r.start) == Some(r.end))
  }

  /** How a character inside a region is masked. */
  function Masking(c: string, r: Region, k: nat): char
    requires r.start <= k < r.end <= |c|
  {
    if c[k] == '\n' && !(r.isString && (k == r.start || k == r.end - 1)) then '\n'
    else if !r.isString then ' '
    else if k == r.start || k == r.end - 1 then c[r.start]
    else '_'
  }

  /** The pattern matches behind the masked text m and nothing is masked all the same: a template without
      an end, or a quote that cannot start a string there. */
  ghost predicate LeftAlone(c: string, m: string)
    requires |m| < |c|
  {
    if c[|m|] == '`' then TemplateEnd(c, |m|).None? else IsQuote(c[|m|]) && !CanStartString(m)
  }

  /** Whole tokens, in order, each allowed to start where it starts. */
  ghost predicate AreRegions(c: string, masked: string, regions: seq<Region>) {
    && (forall j :: 0 <= j < |regions| ==>
          && IsToken(c, regions[j]) && regions[j].end <= |masked|
          && (IsQuote(c[regions[j].start]) ==> CanStartString(masked[..regions[j].start])))
    && (forall i, j :: 0 <= i < j < |regions| ==> regions[i].end <= regions[j].start)
  }

  ghost predicate MasksInside(c: string, masked: string, regions: seq<Region>)
    requires AreRegions(c, masked, regions)
  {
    forall j, k :: 0 <= j < |regions| && regions[j].start <= k < regions[j].end ==> masked[k] == Masking(c, regions[j], k)
  }

  ghost predicate KeepsOutside(c: string, masked: string, regions: seq<Region>)
    requires |masked| <= |c|
  {
    forall k: nat :: k < |masked| && !Covers(regions, k) ==>
      masked[k] == c[k] && (TokenEnd(c, k).Some? ==> LeftAlone(c, masked[..k]))
  }

  /** masked is the mask of the first |masked| characters of c. */
  ghost predicate IsMask(c: string, masked: string, regions: seq<Region>) {
    |masked| <= |c| && AreRegions(c, masked, regions) && MasksInside(c, masked, regions) && KeepsOutside(c, masked, regions)
  }

  ghost predicate RegionsFit(c: string, regions: seq<Region>) {
    forall j :: 0 <= j < |regions| ==>
      regions[j].start < regions[j].end <= |c| && (regions[j].isString ==> regions[j].start + 1 < regions[j].end)
  }

  function LiteralOf(c: string, r: Region): (l: StringLiteral)
    requires r.start + 1 < r.end <= |c|
    ensures l.start == r.start && l.end == r.end
  {
    StringLiteral(r.start, r.end, c[r.start + 1..r.end - 1], c[r.start])
  }

  function Literals(c: string, regions: seq<Region>): seq<StringLiteral>
    requires RegionsFit(c, regions)
  {
    if regions == [] then []
    else
      var r := regions[|regions| - 1];
      Literals(c, regions[..|regions| - 1])
      + (if r.isString then [LiteralOf(c, r)] else [])
  }

  // ----- making it -----

  lemma LongerKeepsRegions(c: string, masked: string, more: string, regions: seq<Region>)
    requires AreRegions(c, masked, regions) && MasksInside(c, masked, regions) && masked <= more
    ensures AreRegions(c, more, regions) && MasksInside(c, more, regions)
  {
    forall j | 0 <= j < |regions|
      ensures more[..regions[j].start] == masked[..regions[j].start]
    {
    }
  }

  /** Copies up to the next match. */
  lemma Copied(c: string, masked: string, regions: seq<Region>, i: nat)
    requires IsMask(c, masked, regions) && |masked| <= i <= |c|
    requires forall k: nat :: |masked| <= k < i && TokenEnd(c, k).Some? ==> LeftAlone(c, masked + c[|masked|..k])
    ensures IsMask(c, masked + c[|masked|..i], regions)
  {
    var more := masked + c[|masked|..i];
    LongerKeepsRegions(c, masked, more, regions);
    hide LeftAlone, AreRegions, MasksInside, Covers;
    forall k: nat | k < |more| && !Covers(regions, k)
      ensures more[k] == c[k] && (TokenEnd(c, k).Some? ==> LeftAlone(c, more[..k]))
    {
      if k < |masked| {
        assert more[..k] == masked[..k];
      } else {
        assert more[..k] == masked + c[|masked|..k];
      }
    }
  }

  lemma MaskedInside(c: string, masked: string, regions: seq<Region>, r: Region, more: string)
    requires AreRegions(c, masked, regions) && MasksInside(c, masked, regions)
    requires |masked| == r.start && IsToken(c, r) && masked <= more && |more| == r.end
    requires IsQuote(c[r.start]) ==> CanStartString(masked)
    requires forall k :: r.start <= k < r.end ==> more[k] == Masking(c, r, k)
    ensures AreRegions(c, more, regions + [r]) && MasksInside(c, more, regions + [r])
  {
    hide IsToken, CanStartString, Masking;
    LongerKeepsRegions(c, masked, more, regions);
    var all := regions + [r];
    assert more[..r.start] == masked;
    forall j | 0 <= j < |all|
      ensures if j < |regions| then all[j] == regions[j] else all[j] == r
    {
    }
  }

  lemma Masked(c: string, masked: string, regions: seq<Region>, r: Region, text: string)
    requires IsMask(c, masked, regions) && |masked| == r.start && IsToken(c, r)
    requires IsQuote(c[r.start]) ==> CanStartString(masked)
    requires |text| == r.end - r.start && forall k :: 0 <= k < |text| ==> text[k] == Masking(c, r, r.start + k)
    ensures IsMask(c, masked + text, regions + [r])
  {
    var more, all := masked + text, regions + [r];
    forall k | r.start <= k < r.end
      ensures more[k] == Masking(c, r, k)
    {
      assert more[k] == text[k - r.start];
    }
    MaskedInside(c, masked, regions, r, more);
    hide LeftAlone, AreRegions, MasksInside, Masking;
    forall k: nat | k < |more| && !Covers(all, k)
      ensures more[k] == c[k] && (TokenEnd(c, k).Some? ==> LeftAlone(c, more[..k]))
    {
      CoversMore(regions, r, k);
      assert more[..k] == masked[..k];
    }
  }

  lemma CoversMore(regions: seq<Region>, r: Region, k: nat)
    ensures Covers(regions + [r], k) <==> Covers(regions, k) || r.start <= k < r.end
  {
    var all := regions + [r];
    assert all[|regions|] == r;
    assert forall j :: 0 <= j < |regions| ==> all[j] == regions[j];
  }

  function BlankOut(c: string, from: nat, to: nat, fill: char): (r: string)
    requires from <= to <= |c|
    ensures |r| == to - from
    ensures forall k :: 0 <= k < |r| ==> r[k] == if c[from + k] == '\n' then '\n' else fill
  {
    seq(to - from, k requires 0 <= k < to - from => if c[from + k] == '\n' then '\n' else fill)
  }

  method MaskSource(c: string) returns (masked: string, strings: seq<StringLiteral>, ghost regions: seq<Region>)
    ensures |masked| == |c| && IsMask(c, masked, regions)
    ensures strings == LiteralsOf(c, masked, regions)
  {
    hide IsMask, Literals, IsToken, CanStartString, TokenEnd, TemplateEnd, Masking;
    masked, strings, regions := "", [], [];
    var last := 0;
    MaskNothing(c);
    while last < |c|
      invariant last == |masked| <= |c| && IsMask(c, masked, regions)
      invariant strings == LiteralsOf(c, masked, regions)
      decreases |c| - last
    {
      var i := NextToken(c, last);
      Copied(c, masked, regions, i);
      SameLiterals(c, masked, masked + c[last..i], regions);
      masked := masked + c[last..i];
      last := i;
      if i == |c| {
        break;
      }
      var end := TokenEnd(c, i).value;
      if c[i] == '`' {
        var close := FindTemplateEnd(c, i);
        if close.None? {
          LeaveOne(c, masked, regions);
          masked, last := masked + [c[i]], i + 1;
          continue;
        }
        end := close.value;
      } else if IsQuote(c[i]) && !CanStartString(masked) {
        LeaveOne(c, masked, regions);
        masked, last := masked + [c[i]], i + 1;
        continue;
      }
      var text;
      ghost var r := Region(i, end, c[i] != '/');
      TokenRegion(c, i, end);
      if c[i] == '/' {
        text := BlankOut(c, i, end, ' ');
        MaskedComment(c, r, text);
      } else {
        text := [c[i]] + BlankOut(c, i + 1, end - 1, '_') + [c[i]];
        strings := strings + [StringLiteral(i, end, c[i + 1..end - 1], c[i])];
        MaskedString(c, r, text);
      }
      Masked(c, masked, regions, r, text);
      MoreLiterals(c, masked, masked + text, regions, r);
      regions := regions + [r];
      masked, last := masked + text, end;
    }
  }

  lemma MaskNothing(c: string)
    ensures IsMask(c, "", []) && LiteralsOf(c, "", []) == []
  {
  }

  /** The literals of a mask. */
  ghost function LiteralsOf(c: string, masked: string, regions: seq<Region>): seq<StringLiteral>
    requires IsMask(c, masked, regions)
  {
    Literals(c, regions)
  }

  lemma SameLiterals(c: string, masked: string, more: string, regions: seq<Region>)
    requires IsMask(c, masked, regions) && IsMask(c, more, regions)
    ensures LiteralsOf(c, masked, regions) == LiteralsOf(c, more, regions)
  {
  }

  lemma MoreLiterals(c: string, masked: string, more: string, regions: seq<Region>, r: Region)
    requires IsMask(c, masked, regions) && IsMask(c, more, regions + [r]) && IsToken(c, r)
    ensures LiteralsOf(c, more, regions + [r]) == LiteralsOf(c, masked, regions)
              + (if r.isString then [LiteralOf(c, r)] else [])
  {
    hide TokenEnd, TemplateEnd, CanStartString, Masking, LeftAlone, Covers, MasksInside, KeepsOutside;
    var all := regions + [r];
    assert all[..|all| - 1] == regions && all[|all| - 1] == r;
  }

  /** What the pattern and the template scanner find is a region. */
  lemma TokenRegion(c: string, i: nat, end: nat)
    requires i < |c| && TokenEnd(c, i).Some?
    requires if c[i] == '`' then TemplateEnd(c, i) == Some(end) else TokenEnd(c, i) == Some(end)
    ensures IsToken(c, Region(i, end, c[i] != '/')) && i < end <= |c| && (c[i] != '/' ==> i + 1 < end)
  {
  }

  lemma MaskedComment(c: string, r: Region, text: string)
    requires r.start < r.end <= |c| && !r.isString && text == BlankOut(c, r.start, r.end, ' ')
    ensures forall k :: 0 <= k < |text| ==> text[k] == Masking(c, r, r.start + k)
  {
  }

  lemma MaskedString(c: string, r: Region, text: string)
    requires r.start + 1 < r.end <= |c| && r.isString
    requires text == [c[r.start]] + BlankOut(c, r.start + 1, r.end - 1, '_') + [c[r.start]]
    ensures |text| == r.end - r.start && forall k :: 0 <= k < |text| ==> text[k] == Masking(c, r, r.start + k)
  {
  }

  lemma LeaveOne(c: string, masked: string, regions: seq<Region>)
    requires IsMask(c, masked, regions) && |masked| < |c| && LeftAlone(c, masked)
    ensures IsMask(c, masked + [c[|masked|]], regions)
    ensures LiteralsOf(c, masked + [c[|masked|]], regions) == LiteralsOf(c, masked, regions)
  {
    hide TokenEnd, LeftAlone, AreRegions, MasksInside, KeepsOutside, Literals;
    var i := |masked|;
    assert c[i..i + 1] == [c[i]];
    forall k: nat | i <= k < i + 1
      ensures LeftAlone(c, masked + c[i..k])
    {
      assert masked + c[i..k] == masked;
    }
    Copied(c, masked, regions, i + 1);
  }

  // ----- what a mask keeps -----

  /** Lines stay where they are, and so does everything outside comments and strings. */
  lemma MaskKeepsLayout(c: string, masked: string, regions: seq<Region>)
    requires IsMask(c, masked, regions) && |masked| == |c|
    ensures forall k :: 0 <= k < |c| ==> (masked[k] == '\n' <==> c[k] == '\n')
    ensures forall k: nat :: k < |c| && !Covers(regions, k) ==> masked[k] == c[k]
    ensures forall j :: 0 <= j < |regions| && regions[j].isString ==>
              masked[regions[j].start] == c[regions[j].start] == masked[regions[j].end - 1] == c[regions[j].end - 1]
  {
    hide TokenEnd, TemplateEnd, CanStartString, LeftAlone, Masking;
    forall k: nat | k < |c|
      ensures masked[k] == '\n' <==> c[k] == '\n'
    {
      if Covers(regions, k) {
        var j :| 0 <= j < |regions| && regions[j].start <= k < regions[j].end;
        assert masked[k] == Masking(c, regions[j], k);
        MaskingKeepsLines(c, regions[j], k);
      }
    }
    forall j | 0 <= j < |regions| && regions[j].isString
      ensures masked[regions[j].start] == c[regions[j].start] == masked[regions[j].end - 1] == c[regions[j].end - 1]
    {
      var r := regions[j];
      TokenQuotes(c, r);
      assert masked[r.start] == Masking(c, r, r.start) && masked[r.end - 1] == Masking(c, r, r.end - 1);
    }
  }

  lemma MaskingKeepsLines(c: string, r: Region, k: nat)
    requires IsToken(c, r) && r.start <= k < r.end
    ensures Masking(c, r, k) == '\n' <==> c[k] == '\n'
  {
    TokenQuotes(c, r);
    hide IsToken;
  }

  /** A string starts and ends with its quote. */
  lemma TokenQuotes(c: string, r: Region)
    requires IsToken(c, r)
    ensures r.start < r.end <= |c|
    ensures r.isString ==> r.start + 1 < r.end && c[r.end - 1] == c[r.start] && c[r.start] != '\n'
    ensures r.isString ==> Masking(c, r, r.start) == c[r.start] == Masking(c, r, r.end - 1)
  {
    if c[r.start] == '`' {
      LastBacktick(c, r.start + 1);
    }
  }

  lemma {:induction false} LastBacktick(c: string, i: nat)
    ensures TextEnd(c, i).Some? ==> c[TextEnd(c, i).value - 1] == '`'
    decreases |c| - i
  {
    if i < |c| {
      if c[i] == '\\' {
        LastBacktick(c, i + 2);
      } else if c[i] == '$' && i + 1 < |c| && c[i + 1] == '{' {
        var end := ExprEnd(c, i + 2, 1);
        if end.Some? {
          LastBacktick(c, end.value);
        }
      } else if c[i] != '`' {
        LastBacktick(c, i + 1);
      }
    }
  }

  /** What is recorded of a string: where it lies, its quotes and what stands between them. */
  ghost predicate Records(c: string, l: StringLiteral) {
    && l.start + 1 < l.end <= |c| && c[l.start] == l.quote == c[l.end - 1]
    && l.value == c[l.start + 1..l.end - 1]
  }

  ghost predicate InOrder(ls: seq<StringLiteral>, limit: nat) {
    && (forall i :: 0 <= i < |ls| ==> ls[i].end <= limit)
    && forall i, j :: 0 <= i < j < |ls| ==> ls[i].end <= ls[j].start
  }

  lemma OrderedOneMore(ls: seq<StringLiteral>, l: StringLiteral, limit: nat)
    requires InOrder(ls, l.start) && l.start <= l.end <= limit
    ensures InOrder(ls + [l], limit)
  {
    var all := ls + [l];
    forall i, j | 0 <= i < j < |all|
      ensures all[i].end <= all[j].start
    {
      assert all[i] == ls[i] && (j < |ls| ==> all[j] == ls[j]);
    }
  }

  ghost predicate TokensApart(c: string, regions: seq<Region>, limit: nat) {
    && (forall j :: 0 <= j < |regions| ==> IsToken(c, regions[j]) && regions[j].end <= limit)
    && forall i, j :: 0 <= i < j < |regions| ==> regions[i].end <= regions[j].start
  }

  lemma TokensFront(c: string, regions: seq<Region>, limit: nat, front: seq<Region>, r: Region)
    requires TokensApart(c, regions, limit) && regions != []
    requires front == regions[..|regions| - 1] && r == regions[|regions| - 1]
    ensures TokensApart(c, front, r.start) && IsToken(c, r) && r.end <= limit
  {
    hide IsToken;
  }

  lemma {:induction false} LiteralsInOrder(c: string, regions: seq<Region>, limit: nat)
    requires TokensApart(c, regions, limit)
    ensures RegionsFit(c, regions)
    ensures InOrder(Literals(c, regions), limit) && forall l | l in Literals(c, regions) :: Records(c, l)
  {
    if regions == [] {
      assert RegionsFit(c, regions) && Literals(c, regions) == [];
    } else {
      hide Literals, LiteralOf, IsToken, Records, InOrder, TokensApart, RegionsFit;
      var front, r := regions[..|regions| - 1], regions[|regions| - 1];
      TokensFront(c, regions, limit, front, r);
      TokenQuotes(c, r);
      LiteralsInOrder(c, front, r.start);
      assert RegionsFit(c, regions) by { FitsOneMore(c, regions, front, r); }
      LiteralsLast(c, regions, front, r);
      if r.isString {
        StringRecorded(c, r);
        OrderedOneMore(Literals(c, front), LiteralOf(c, r), limit);
      } else {
        LimitRaised(Literals(c, front), r.start, limit);
      }
    }
  }

  lemma FitsOneMore(c: string, regions: seq<Region>, front: seq<Region>, r: Region)
    requires regions != [] && front == regions[..|regions| - 1] && r == regions[|regions| - 1]
    requires RegionsFit(c, front) && r.start < r.end <= |c| && (r.isString ==> r.start + 1 < r.end)
    ensures RegionsFit(c, regions)
  {
    forall j | 0 <= j < |regions|
      ensures regions[j].start < regions[j].end <= |c| && (regions[j].isString ==> regions[j].start + 1 < regions[j].end)
    {
      assert regions[j] == if j < |front| then front[j] else r;
    }
  }

  lemma LiteralsLast(c: string, regions: seq<Region>, front: seq<Region>, r: Region)
    requires RegionsFit(c, regions) && regions != []
    requires front == regions[..|regions| - 1] && r == regions[|regions| - 1]
    ensures Literals(c, regions) == Literals(c, front)
              + (if r.isString then [LiteralOf(c, r)] else [])
  {
  }

  lemma StringRecorded(c: string, r: Region)
    requires IsToken(c, r) && r.isString
    ensures Records(c, LiteralOf(c, r))
  {
    TokenQuotes(c, r);
    hide IsToken;
  }

  lemma LimitRaised(ls: seq<StringLiteral>, limit: nat, more: nat)
    requires InOrder(ls, limit) && limit <= more
    ensures InOrder(ls, more)
  {
  }

  /** The recorded strings lie apart, in order, each with its quotes and what stands between them. */
  lemma StringsApart(c: string, masked: string, regions: seq<Region>)
    requires IsMask(c, masked, regions)
    ensures var ls := LiteralsOf(c, masked, regions);
            && (forall l | l in ls :: Records(c, l))
            && forall i, j :: 0 <= i < j < |ls| ==> ls[i].end <= ls[j].start
  {
    hide MasksInside, KeepsOutside, CanStartString;
    LiteralsInOrder(c, regions, |c|);
  }
}
