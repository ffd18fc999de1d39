/** Quoted literals as they are written, and where the quote scanner ends them. */
module QuoteText {
  import opened SqlLexis
  import opened Wrappers

  /** One character of the value: as it is (a quote doubled), or behind a backslash. */
  datatype Sign = Plain(c: char) | Escaped(c: char)

  function SignText(s: Sign, q: char): (w: string)
    ensures 1 <= |w| <= 2
  {
    match s
    case Plain(c) => if c == q then [q, q] else [c]
    case Escaped(c) => ['\\', c]
  }

  function Inside(signs: seq<Sign>, q: char): string {
    if signs == [] then "" else SignText(signs[0], q) + Inside(signs[1..], q)
  }

  /** In an escape string every backslash escapes; in an ordinary one none does. */
  ghost predicate Spelled(signs: seq<Sign>, esc: bool) {
    forall s | s in signs :: if s.Escaped? then esc else !(esc && s.c == '\\')
  }

  /** A literal behind its opening quote. */
  function Closing(signs: seq<Sign>, q: char): string { Inside(signs, q) + [q] }

  lemma ClosingAt(signs: seq<Sign>, q: char)
    requires signs != []
    ensures Closing(signs, q) == SignText(signs[0], q) + Closing(signs[1..], q)
  {
  }

  lemma SpelledRest(signs: seq<Sign>, esc: bool)
    requires signs != [] && Spelled(signs, esc)
    ensures Spelled(signs[1..], esc) && Spelled([signs[0]], esc)
    ensures signs[0].Escaped? ==> esc
    ensures signs[0] == Plain('\\') ==> !esc
  {
    assert signs[0] in signs;
  }

  /** What is written is read to its end, unless the range goes on with another quote. */
  lemma {:induction false} ReadsClosing(t: string, q: char, esc: bool, j: nat, e: nat, hi: nat, signs: seq<Sign>)
    requires e <= hi <= |t| && e == j + |Closing(signs, q)| && t[j..e] == Closing(signs, q) && q != '\\'
    requires Spelled(signs, esc) && (e < hi ==> t[e] != q)
    ensures QuoteEndFrom(t, q, esc, j, hi) == Some(e)
    decreases |signs|
  {
    if signs == [] {
      assert t[j] == t[j..e][0] == q;
    } else {
      var first, rest := SignText(signs[0], q), Closing(signs[1..], q);
      var n := j + |first|;
      SpelledRest(signs, esc);
      ClosingAt(signs, q);
      assert t[j..e][..|first|] == first && t[j..e][|first|..] == rest;
      assert t[n..e] == rest;
      assert t[j] == first[0] && (|first| == 2 ==> t[j + 1] == t[j..e][1] == first[1]);
      ReadsClosing(t, q, esc, n, e, hi, signs[1..]);
    }
  }

  /** The first sign of what is read. */
  lemma FirstSign(t: string, q: char, esc: bool, j: nat, hi: nat) returns (sign: Sign)
    requires hi <= |t| && QuoteEndFrom(t, q, esc, j, hi).Some? && q != '\\'
    requires !(t[j] == q && !(j + 1 < hi && t[j + 1] == q))
    ensures if sign.Escaped? then esc else !(esc && sign.c == '\\')
    ensures var n := j + |SignText(sign, q)|;
            && n <= hi && t[j..n] == SignText(sign, q)
            && QuoteEndFrom(t, q, esc, j, hi) == QuoteEndFrom(t, q, esc, n, hi)
  {
    sign := if esc && t[j] == '\\' then Escaped(t[j + 1]) else Plain(t[j]);
  }

  lemma SliceParts(t: string, j: nat, n: nat, e: nat)
    requires j <= n <= e <= |t|
    ensures t[j..e] == t[j..n] + t[n..e]
  {
  }

  /** And what is read to an end is written so. */
  lemma {:induction false} ClosingRead(t: string, q: char, esc: bool, j: nat, hi: nat) returns (signs: seq<Sign>)
    requires hi <= |t| && QuoteEndFrom(t, q, esc, j, hi).Some? && q != '\\'
    ensures var e := QuoteEndFrom(t, q, esc, j, hi).value;
            && j < e && t[j..e] == Closing(signs, q) && Spelled(signs, esc) && (e < hi ==> t[e] != q)
    decreases hi - j
  {
    var e := QuoteEndFrom(t, q, esc, j, hi).value;
    if t[j] == q && !(j + 1 < hi && t[j + 1] == q) {
      signs := [];
      assert t[j..e] == [q];
    } else {
      var sign := FirstSign(t, q, esc, j, hi);
      var n := j + |SignText(sign, q)|;
      hide SignText, Inside;
      var rest := ClosingRead(t, q, esc, n, hi);
      signs := [sign] + rest;
      assert signs[1..] == rest;
      ClosingAt(signs, q);
      hide *;
      SliceParts(t, j, n, e);
    }
  }

  /** A quoted literal ends at e exactly when what stands up to e is written as one and the range does not
      go on with another quote. */
  lemma QuoteEndExact(t: string, q: char, esc: bool, j: nat, hi: nat, e: nat)
    requires hi <= |t| && q != '\\'
    ensures QuoteEndFrom(t, q, esc, j, hi) == Some(e) <==>
            && j < e <= hi && (e < hi ==> t[e] != q)
            && exists signs :: Spelled(signs, esc) && t[j..e] == Closing(signs, q)
  {
    if QuoteEndFrom(t, q, esc, j, hi) == Some(e) {
      var signs := ClosingRead(t, q, esc, j, hi);
    }
    if j < e <= hi && (e < hi ==> t[e] != q) {
      if signs :| Spelled(signs, esc) && t[j..e] == Closing(signs, q) {
        ReadsClosing(t, q, esc, j, e, hi, signs);
      }
    }
  }

  // ----- delimiters of dollar quotes -----

  /** A tag is empty or a name without dollar signs. */
  predicate IsTag(tag: string) {
    (tag != [] ==> TagStart(tag[0])) && forall k :: 0 <= k < |tag| ==> TagChar(tag[k])
  }

  function Delimiter(tag: string): string { "$" + tag + "$" }

  /** A delimiter is read at p exactly when a tag between dollar signs stands there. */
  lemma DelimiterExact(t: string, p: nat, d: string)
    ensures DelimiterFrom(t, p) == Some(d) <==>
            p + |d| <= |t| && t[p..p + |d|] == d && exists tag :: IsTag(tag) && d == Delimiter(tag)
  {
    if DelimiterFrom(t, p) == Some(d) {
      var e := TagRun(t, p + 1);
      var tag := t[p + 1..e];
      assert IsTag(tag) && d == Delimiter(tag);
    }
    if p + |d| <= |t| && t[p..p + |d|] == d {
      if tag :| IsTag(tag) && d == Delimiter(tag) {
        DelimiterRead(t, p, tag);
      }
    }
  }

  lemma DelimiterRead(t: string, p: nat, tag: string)
    requires IsTag(tag) && p + |tag| + 2 <= |t| && t[p..p + |tag| + 2] == Delimiter(tag)
    ensures DelimiterFrom(t, p) == Some(Delimiter(tag))
  {
    var d, e := Delimiter(tag), p + 1 + |tag|;
    var x := t[p..p + |tag| + 2];
    assert t[p] == x[0] == '$' && t[e] == x[|tag| + 1] == d[|tag| + 1] == '$';
    forall k | p + 1 <= k < e
      ensures TagChar(t[k]) && (k == p + 1 ==> t[k] == tag[0])
    {
      assert t[k] == x[k - p] == d[k - p] == tag[k - p - 1];
    }
    RunEnds(t, p + 1, e);
  }

  lemma RunEnds(t: string, j: nat, e: nat)
    requires j <= e < |t| && t[e] == '$' && forall k :: j <= k < e ==> TagChar(t[k])
    ensures TagRun(t, j) == e
  {
    assert TagRun(t, j) <= e;
  }

  lemma {:induction false} NeverCloses(t: string, q: char, esc: bool, j: nat, hi: nat)
    requires hi <= |t| && forall k :: j <= k < hi ==> t[k] != q
    ensures QuoteEndFrom(t, q, esc, j, hi).None?
    decreases hi - j
  {
    if j < hi {
      NeverCloses(t, q, esc, if esc && t[j] == '\\' then j + 2 else j + 1, hi);
    }
  }
}
