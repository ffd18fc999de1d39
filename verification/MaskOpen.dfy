/** Literals of a DELETE statement that are never closed. */
module MaskOpen {
  import opened MaskLiterals
  import opened MaskStatement
  import opened QuoteText
  import opened SqlLexis
  import opened TextParts
  import opened Wrappers

  /** The text x of the statement at `from` ends at i. */
  ghost predicate Opens(t: string, from: nat, x: string, i: nat, token: Option<string>) {
    Part(t, from, x) && i == from + |x| < |t| && PlainFrom(x, 0, 0) && IsToken(token)
  }

  /** Behind a quote that never comes again the statement is one literal. */
  lemma OpenQuote(t: string, from: nat, token: Option<string>, bs: bool, x: string, i: nat)
    requires Opens(t, from, x, i, token) && (t[i] == '\'' || t[i] == '"') && token != Some([t[i]])
    requires forall k :: i < k < |t| ==> t[k] != t[i]
    ensures var cut := if t[i] == '\'' then |x| - StringPrefix(x) else |x|;
            && 0 <= cut
            && Mask(t, from, token, bs, from, from, 0) == x[..cut] + (if t[i] == '"' then " ident " else " 0 ")
  {
    hide Mask, StepAt, IsToken, Part, PlainFrom, DepthAfter, QuoteEndFrom, StringPrefix, PrefixLength;
    var inside := DepthAfter(x, 0, 0);
    MaskText(t, from, token, bs, from, from, x, 0, 0, from, i);
    TokenStart(t, token, i);
    NeverCloses(t, t[i], EscapeString(t, i, 0, bs), i + 1, |t|);
    assert "" + x == x;
    PrefixIn(t, from, from, "", x);
    OpenStep(t, from, token, bs, i, inside);
    MaskReplaces(t, from, token, bs, from, i, inside);
    PartFirst(t, from, x, if t[i] == '\'' then |x| - StringPrefix(x) else |x|);
    NothingMasked(t, from, token, bs, inside);
  }

  lemma OpenStep(t: string, from: nat, token: Option<string>, bs: bool, i: nat, depth: nat)
    requires from <= i < |t| && IsQuote(t[i]) && !StopsAt(t, token, i)
    requires QuoteEndFrom(t, t[i], EscapeString(t, i, 0, bs), i + 1, |t|).None?
    ensures var prefix := if t[i] == '\'' then PrefixLength(t, i, from) else 0;
            StepAt(t, from, token, bs, from, i, depth) == Replace(i - prefix, Mark(t[i]), |t|)
  {
    hide QuoteEndFrom, PrefixLength, DelimiterAt, FirstOccurrence, StopsAt, EscapeString;
  }

  lemma NothingMasked(t: string, from: nat, token: Option<string>, bs: bool, depth: nat)
    requires from <= |t|
    ensures Mask(t, from, token, bs, |t|, |t|, depth) == ""
  {
  }

  /** A delimiter that never comes again is dropped, and the reading goes on behind it. */
  lemma OpenDollar(t: string, from: nat, token: Option<string>, bs: bool, x: string, i: nat, tag: string)
    requires Opens(t, from, x, i, token) && x != "" && !IdentChar(x[|x| - 1])
    requires IsTag(tag) && Part(t, i, Delimiter(tag)) && token != Some(Delimiter(tag))
    requires forall k: nat :: i + |Delimiter(tag)| <= k ==> !OccursAt(t, Delimiter(tag), k)
    ensures var end := i + |tag| + 2;
            Mask(t, from, token, bs, from, from, 0) == x + Mask(t, from, token, bs, end, end, DepthAfter(x, 0, 0))
  {
    hide *;
    TagDelimits(tag);
    DollarOpened(t, from, token, bs, x, i, Delimiter(tag));
  }

  lemma TagDelimits(tag: string)
    requires IsTag(tag)
    ensures IsDelimiter(Delimiter(tag)) && |Delimiter(tag)| == |tag| + 2
  {
    var d := Delimiter(tag);
    assert |d| == |tag| + 2 && d[0..|d|] == d;
    hide IsTag, DelimiterFrom;
    DelimiterRead(d, 0, tag);
  }

  lemma DollarOpened(t: string, from: nat, token: Option<string>, bs: bool, x: string, i: nat, d: string)
    requires Opens(t, from, x, i, token) && x != "" && !IdentChar(x[|x| - 1])
    requires IsDelimiter(d) && Part(t, i, d) && token != Some(d)
    requires forall k: nat :: i + |d| <= k ==> !OccursAt(t, d, k)
    ensures var end := i + |d|;
            end <= |t|
            && Mask(t, from, token, bs, from, from, 0) == x + Mask(t, from, token, bs, end, end, DepthAfter(x, 0, 0))
  {
    hide Mask, StepAt, IsToken, Part, PlainFrom, DepthAfter, OccursAt, FirstOccurrence, DelimiterAt, IsDelimiter;
    var inside := DepthAfter(x, 0, 0);
    MaskText(t, from, token, bs, from, from, x, 0, 0, from, i);
    OpensDollar(t, from, x, d, token);
    FirstOccurs(t, d, i + |d|, |t|);
    DropStep(t, from, token, bs, i, inside, d);
    MaskReplaces(t, from, token, bs, from, i, inside);
    PartFirst(t, from, x, |x|);
    assert x[..|x|] + "" == x;
  }

  lemma DropStep(t: string, from: nat, token: Option<string>, bs: bool, i: nat, depth: nat, d: string)
    requires from <= i < |t| && t[i] == '$' && !StopsAt(t, token, i) && |d| > 0
    requires DelimiterAt(t, i, 0, |t|) == Some(d) && FirstOccurrence(t, d, i + |d|, |t|).None?
    ensures i + |d| <= |t| && StepAt(t, from, token, bs, from, i, depth) == Replace(i, "", i + |d|)
  {
    hide DelimiterAt, FirstOccurrence, StopsAt, QuoteEnd, PrefixLength;
  }
}
