/** The lexical rules of PostgreSQL that the scanners share: quotes, escape
    strings and dollar quotes (sections 4.1.2.1, 4.1.2.2 and 4.1.2.4). A range
    lo..hi of the text is read as if nothing stood around it. */
module SqlLexis {
  import opened Wrappers

  predicate AsciiLetter(c: char) { 'a' <= c <= 'z' || 'A' <= c <= 'Z' }

  predicate TagStart(c: char) { AsciiLetter(c) || c == '_' || c >= '\U{0080}' }

  predicate TagChar(c: char) { TagStart(c) || '0' <= c <= '9' }

  predicate IdentChar(c: char) { TagChar(c) || c == '$' }

  predicate IsQuote(c: char) { c == '\'' || c == '"' }

  // ----- quotes -----

  /** t[i] opens a string in which a backslash escapes the next character. */
  predicate EscapeString(t: string, i: nat, lo: nat, bs: bool)
    requires lo <= i < |t|
  {
    && t[i] == '\''
    && (bs || (lo < i && (t[i - 1] == 'E' || t[i - 1] == 'e') && (i - 1 == lo || !IdentChar(t[i - 2]))))
  }

  /** Where a literal quoted with q ends, reading from j; None without a closing quote before hi. */
  function QuoteEndFrom(t: string, q: char, esc: bool, j: nat, hi: nat): (r: Option<nat>)
    requires hi <= |t|
    ensures r.Some? ==> j < r.value <= hi
    decreases hi - j
  {
    if j >= hi then None
    else if esc && t[j] == '\\' then QuoteEndFrom(t, q, esc, j + 2, hi)
    else if t[j] != q then QuoteEndFrom(t, q, esc, j + 1, hi)
    else if j + 1 < hi && t[j + 1] == q then QuoteEndFrom(t, q, esc, j + 2, hi)
    else Some(j + 1)
  }

  function QuoteEnd(t: string, i: nat, bs: bool, lo: nat, hi: nat): (r: Option<nat>)
    requires lo <= i < hi <= |t|
    ensures r.Some? ==> i + 1 < r.value <= hi
  {
    QuoteEndFrom(t, t[i], EscapeString(t, i, lo, bs), i + 1, hi)
  }

  method FindQuoteEnd(t: string, i: nat, bs: bool, lo: nat, hi: nat) returns (r: Option<nat>)
    requires lo <= i < hi <= |t|
    ensures r == QuoteEnd(t, i, bs, lo, hi)
  {
    var q := t[i];
    var esc := EscapeString(t, i, lo, bs);
    var j := i + 1;
    while j < hi
      invariant QuoteEnd(t, i, bs, lo, hi) == QuoteEndFrom(t, q, esc, j, hi)
    {
      var c := t[j];
      if esc && c == '\\' {
        j := j + 2;
        continue;
      }
      if c == q {
        if j + 1 < hi && t[j + 1] == q {
          j := j + 2;
          continue;
        }
        return Some(j + 1);
      }
      j := j + 1;
    }
    return None;
  }

  // ----- dollar quotes -----

  /** The first index from j on that does not hold a tag character. */
  function TagRun(t: string, j: nat): (e: nat)
    requires j <= |t|
    ensures j <= e <= |t|
    ensures forall k :: j <= k < e ==> TagChar(t[k])
    ensures e < |t| ==> !TagChar(t[e])
    decreases |t| - j
  {
    if j < |t| && TagChar(t[j]) then TagRun(t, j + 1) else j
  }

  /** The delimiter $tag$ that starts at p. */
  function DelimiterFrom(t: string, p: nat): (d: Option<string>)
    ensures d.Some? ==> |d.value| >= 2 && p + |d.value| <= |t|
  {
    if p < |t| && t[p] == '$' then
      var e := TagRun(t, p + 1);
      if e < |t| && t[e] == '$' && (e > p + 1 ==> TagStart(t[p + 1])) then Some(t[p..e + 1]) else None
    else None
  }

  /** The same inside a range: none directly after an identifier character, none past the end. */
  function DelimiterAt(t: string, i: nat, lo: nat, hi: nat): (d: Option<string>)
    requires lo <= i < hi <= |t|
    ensures d.Some? ==> |d.value| >= 2 && i + |d.value| <= hi
  {
    if lo < i && IdentChar(t[i - 1]) then None
    else
      var d := DelimiterFrom(t, i);
      if d.Some? && i + |d.value| <= hi then d else None
  }

  ghost predicate IsDelimiter(d: string) {
    DelimiterFrom(d, 0) == Some(d)
  }

  predicate OccursAt(t: string, d: string, q: nat) {
    q + |d| <= |t| && forall k | 0 <= k < |d| :: t[q + k] == d[k]
  }

  lemma OccursText(t: string, d: string, q: nat)
    ensures OccursAt(t, d, q) <==> q + |d| <= |t| && t[q..q + |d|] == d
  {
    if q + |d| <= |t| && t[q..q + |d|] == d {
      forall k | 0 <= k < |d|
        ensures t[q + k] == d[k]
      {
        assert t[q..q + |d|][k] == t[q + k];
      }
    }
  }

  /** The first place from `from` on where d occurs and ends by `limit`. */
  function FirstOccurrence(t: string, d: string, from: nat, limit: nat): (r: Option<nat>)
    requires limit <= |t|
    ensures r.Some? ==> from <= r.value && r.value + |d| <= limit
    decreases limit - from
  {
    if from + |d| > limit then None
    else if OccursAt(t, d, from) then Some(from)
    else FirstOccurrence(t, d, from + 1, limit)
  }

  lemma {:induction false} FirstOccurs(t: string, d: string, from: nat, limit: nat)
    requires limit <= |t|
    ensures var r := FirstOccurrence(t, d, from, limit);
            if r.Some? then OccursAt(t, d, r.value) && forall q | from <= q < r.value :: !OccursAt(t, d, q)
            else forall q | from <= q && q + |d| <= limit :: !OccursAt(t, d, q)
    decreases limit - from
  {
    hide OccursAt;
    if from + |d| <= limit && !OccursAt(t, d, from) {
      FirstOccurs(t, d, from + 1, limit);
    }
  }

  lemma FirstIs(t: string, d: string, from: nat, limit: nat, at: nat)
    requires from <= at && at + |d| <= limit <= |t| && OccursAt(t, d, at)
    requires forall q | from <= q < at :: !OccursAt(t, d, q)
    ensures FirstOccurrence(t, d, from, limit) == Some(at)
  {
    hide OccursAt;
    FirstOccurs(t, d, from, limit);
  }

  /** Reading t at p, a delimiter is found exactly where its text occurs. */
  lemma {:induction false} DelimiterOccurs(t: string, d: string, p: nat)
    requires IsDelimiter(d)
    ensures OccursAt(t, d, p) <==> DelimiterFrom(t, p) == Some(d)
  {
    if OccursAt(t, d, p) {
      assert forall k :: 0 <= k < |d| ==> t[p + k] == d[k];
      TagRunShift(d, t, 1, p);
    }
  }

  /** A run of tag characters that ends inside u is the same run where u occurs. */
  lemma {:induction false} TagRunShift(u: string, t: string, j: nat, p: nat)
    requires j <= |u| && p + |u| <= |t| && t[p..p + |u|] == u
    requires TagRun(u, j) < |u|
    ensures TagRun(t, p + j) == p + TagRun(u, j)
    decreases |u| - j
  {
    assert t[p + j] == u[j];
    if TagChar(u[j]) {
      TagRunShift(u, t, j + 1, p);
    }
  }

  lemma DelimiterIsOne(t: string, p: nat)
    requires DelimiterFrom(t, p).Some?
    ensures IsDelimiter(DelimiterFrom(t, p).value)
  {
    var d := DelimiterFrom(t, p).value;
    var e := TagRun(t, p + 1);
    assert forall k :: 0 <= k < |d| ==> t[p + k] == d[k];
    var f := TagRun(d, 1);
    assert d[e - p] == '$' && forall k :: 1 <= k < e - p ==> TagChar(d[k]);
    assert f == e - p;
    assert d[0..f + 1] == d;
  }

  // ----- the index of all delimiters -----

  type DollarIndex = map<string, seq<nat>>

  /** The list of d holds exactly the places where d starts, in increasing order. */
  ghost predicate Indexes(index: DollarIndex, t: string, upTo: nat) {
    && (forall d :: d in index ==> Increasing(index[d]))
    && (forall d, k :: d in index && 0 <= k < |index[d]| ==>
          index[d][k] < upTo && DelimiterFrom(t, index[d][k]) == Some(d))
    && (forall p: nat :: p < upTo && DelimiterFrom(t, p).Some? ==> Recorded(index, DelimiterFrom(t, p).value, p))
  }

  ghost predicate Recorded(index: DollarIndex, d: string, p: nat) {
    d in index && exists k :: 0 <= k < |index[d]| && index[d][k] == p
  }

  ghost predicate Increasing(s: seq<nat>) {
    forall a, b :: 0 <= a < b < |s| ==> s[a] < s[b]
  }

  /** Where the next '$' stands, or the length of the text. */
  function NextDollarSign(t: string, p: nat): (r: nat)
    requires p <= |t|
    ensures p <= r <= |t| && (r < |t| ==> t[r] == '$') && forall k :: p <= k < r ==> t[k] != '$'
    decreases |t| - p
  {
    if p < |t| && t[p] != '$' then NextDollarSign(t, p + 1) else p
  }

  lemma Records(index: DollarIndex, t: string, p: nat, d: string, list: seq<nat>)
    requires Indexes(index, t, p) && DelimiterFrom(t, p) == Some(d)
    requires list == if d in index then index[d] else []
    ensures Indexes(index[d := list + [p]], t, p + 1)
  {
    hide DelimiterFrom;
    var longer := list + [p];
    var wider := index[d := longer];
    assert Increasing(longer) && forall k :: 0 <= k < |longer| ==> longer[k] < p + 1 && DelimiterFrom(t, longer[k]) == Some(d);
    forall q: nat | q < p + 1 && DelimiterFrom(t, q).Some?
      ensures Recorded(wider, DelimiterFrom(t, q).value, q)
    {
      var e := DelimiterFrom(t, q).value;
      if q == p {
        assert wider[e] == longer && longer[|list|] == q;
      } else {
        assert Recorded(index, e, q);
        var k :| 0 <= k < |index[e]| && index[e][k] == q;
        assert wider[e] == (if e == d then longer else index[e]) && wider[e][k] == q;
      }
    }
  }

  lemma SkipsToDollar(index: DollarIndex, t: string, p: nat)
    requires p <= |t| && Indexes(index, t, p)
    ensures Indexes(index, t, NextDollarSign(t, p))
  {
    assert forall q: nat :: p <= q < NextDollarSign(t, p) ==> DelimiterFrom(t, q).None?;
    hide DelimiterFrom;
  }

  lemma SkipsNoDelimiter(index: DollarIndex, t: string, p: nat)
    requires Indexes(index, t, p) && DelimiterFrom(t, p).None?
    ensures Indexes(index, t, p + 1)
  {
    hide DelimiterFrom;
  }

  /** One reading of the text records every delimiter. */
  method BuildDollarIndex(t: string) returns (index: DollarIndex)
    ensures Indexes(index, t, |t|)
  {
    hide DelimiterFrom;
    index := map[];
    assert Indexes(index, t, 0);
    hide Indexes;
    var p := NextDollarSign(t, 0);
    SkipsToDollar(index, t, 0);
    while p < |t|
      invariant p <= |t| && Indexes(index, t, p)
    {
      var m := DelimiterFrom(t, p);
      if m.Some? {
        var list := if m.value in index then index[m.value] else [];
        Records(index, t, p, m.value, list);
        index := index[m.value := list + [p]];
      } else {
        SkipsNoDelimiter(index, t, p);
      }
      SkipsToDollar(index, t, p + 1);
      p := NextDollarSign(t, p + 1);
    }
  }

  /** The first recorded place not before `from` is the first occurrence, if that fits at all. */
  lemma RecordedFirst(index: DollarIndex, t: string, d: string, from: nat, limit: nat, at: nat)
    requires Indexes(index, t, |t|) && IsDelimiter(d) && limit <= |t|
    requires d in index && at <= |index[d]|
    requires forall k :: 0 <= k < at ==> index[d][k] < from
    requires forall k :: at <= k < |index[d]| ==> from <= index[d][k]
    ensures FirstOccurrence(t, d, from, limit)
         == if at < |index[d]| && index[d][at] + |d| <= limit then Some(index[d][at]) else None
  {
    FirstOccurs(t, d, from, limit);
    hide OccursAt, DelimiterFrom;
    var first, list := FirstOccurrence(t, d, from, limit), index[d];
    if first.Some? {
      DelimiterOccurs(t, d, first.value);
      assert Recorded(index, d, first.value);
      var k :| 0 <= k < |list| && list[k] == first.value;
      DelimiterOccurs(t, d, list[at]);
    } else if at < |list| {
      DelimiterOccurs(t, d, list[at]);
    }
  }

  lemma NotRecorded(index: DollarIndex, t: string, d: string, from: nat, limit: nat)
    requires Indexes(index, t, |t|) && IsDelimiter(d) && limit <= |t| && d !in index
    ensures FirstOccurrence(t, d, from, limit).None?
  {
    FirstOccurs(t, d, from, limit);
    hide OccursAt, DelimiterFrom;
    var first := FirstOccurrence(t, d, from, limit);
    if first.Some? {
      DelimiterOccurs(t, d, first.value);
    }
  }

  /** Binary search in the list of the delimiter: the answer of a linear search in the text. */
  method NextDollar(index: DollarIndex, t: string, d: string, from: nat, limit: nat) returns (r: Option<nat>)
    requires Indexes(index, t, |t|) && IsDelimiter(d) && limit <= |t|
    ensures r == FirstOccurrence(t, d, from, limit)
  {
    if d !in index {
      NotRecorded(index, t, d, from, limit);
      return None;
    }
    var list := index[d];
    var lo, hi := 0, |list|;
    assert Increasing(list);
    hide Indexes, FirstOccurrence, DelimiterFrom;
    while lo < hi
      invariant 0 <= lo <= hi <= |list|
      invariant forall k :: 0 <= k < lo ==> list[k] < from
      invariant forall k :: hi <= k < |list| ==> from <= list[k]
    {
      var mid := (lo + hi) / 2;
      if list[mid] < from {
        lo := mid + 1;
      } else {
        hi := mid;
      }
    }
    RecordedFirst(index, t, d, from, limit, lo);
    return if lo < |list| && list[lo] + |d| <= limit then Some(list[lo]) else None;
  }
}
