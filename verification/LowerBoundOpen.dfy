/** What the lower bound reader makes of a DELETE statement whose last part is never closed. */
module LowerBoundOpen {
  import opened LowerBoundPrint
  import opened LowerBoundScan
  import opened LowerBoundStrip
  import opened MaskStatement
  import opened Numbers
  import opened QuoteText
  import opened SqlLexis
  import opened StripLaws
  import opened TextParts
  import opened Wrappers

  /** The parts stand in t from `from` up to e, where something opens. */
  ghost predicate Before(t: string, token: Option<string>, from: nat, ps: seq<Piece>, e: nat) {
    && from <= e < |t| && t[from..e] == ShownAll(ps) && FitAll(ps, t[e..]) && Apart(t[..from], t[from..])
    && NoToken(t, token, from, e + 1)
  }

  lemma PartsRead(t: string, token: Option<string>, from: nat, ps: seq<Piece>, e: nat)
    requires Before(t, token, from, ps, e)
    ensures ScanFrom(t, token, from) == Scan(t, token, e, 0, 0, AddedAll(Outer("", []), ps)) && !StopsAt(t, token, e)
  {
    hide StopsAt, ShownAll, FitAll;
    assert Part(t, from, ShownAll(ps)) && NoToken(t, token, from, e);
    PiecesScanned(t, token, from, ps, t[e..], e, 0, 0, Outer("", []));
  }

  lemma AtEnd(t: string, token: Option<string>, out: Outer)
    ensures Scan(t, token, |t|, 0, 0, out) == out
  {
  }

  /** A group that the statement ends in is put aside with all the text behind its parenthesis. */
  lemma OpenGroup(t: string, token: Option<string>, from: nat, ps: seq<Piece>, e: nat, inner: seq<Piece>, h: nat)
    requires Before(t, token, from, ps, e) && e < h <= |t| && t[e..h] == "(" + ShownAll(inner)
    requires FitAll(inner, t[h..]) && NoToken(t, token, e, h) && (h < |t| ==> t[h] == ';' || StopsAt(t, token, h))
    ensures var out := AddedAll(Outer("", []), ps);
            ScanFrom(t, token, from)
            == Outer(out.outside + " (grp" + Decimal(|out.groups|) + ") ", out.groups + [t[e + 1..]])
  {
    var out := AddedAll(Outer("", []), ps);
    var begun := Keep(out, 0, " " + GroupMark(|out.groups|) + " ");
    hide *;
    GroupBehind(t, e, ShownAll(inner), h);
    PartsRead(t, token, from, ps, e);
    OpenScanned(t, token, e, 0, 0, out);
    NoTokenLater(t, token, e, h);
    PiecesScanned(t, token, e + 1, inner, t[h..], h, 1, e + 1, begun);
    assert AddedAt(begun, inner, 1) == begun by { NotAdded(begun, inner); }
    EndsInside(t, token, h, e + 1, begun);
    Aside(out, t[e + 1..]);
  }

  lemma GroupBehind(t: string, e: nat, u: string, h: nat)
    requires e < h <= |t| && t[e..h] == "(" + u
    ensures t[e] == '(' && Part(t, e + 1, u) && e + 1 + |u| == h && Apart(t[..e + 1], t[e + 1..])
  {
    assert t[e] == t[e..h][0] && t[e + 1..h] == t[e..h][1..] == u;
    assert t[..e + 1][e] == '(';
  }

  lemma NoTokenLater(t: string, token: Option<string>, e: nat, h: nat)
    requires NoToken(t, token, e, h)
    ensures NoToken(t, token, e + 1, h)
  {
    hide StopsAt;
  }

  lemma EndsInside(t: string, token: Option<string>, h: nat, start: nat, out: Outer)
    requires start <= h <= |t| && (h < |t| ==> t[h] == ';' || StopsAt(t, token, h))
    ensures Scan(t, token, h, 1, start, out) == PutAside(out, t[start..])
  {
    hide StopsAt, QuoteEnd, FirstOccurrence, DelimiterFrom;
  }

  lemma NotAdded(out: Outer, ps: seq<Piece>)
    ensures AddedAt(out, ps, 1) == out
  {
  }

  lemma Aside(out: Outer, group: string)
    ensures PutAside(Keep(out, 0, " " + GroupMark(|out.groups|) + " "), group)
         == Outer(out.outside + " (grp" + Decimal(|out.groups|) + ") ", out.groups + [group])
  {
    hide GroupMark, Decimal;
    var n := |out.groups|;
    MarkText(n);
    assert out.outside + (" (grp" + Decimal(n) + ") ") == out.outside + " (grp" + Decimal(n) + ") ";
  }

  /** Behind a quote that never comes again the statement is one literal. */
  lemma OpenLiteral(t: string, token: Option<string>, from: nat, ps: seq<Piece>, e: nat)
    requires Before(t, token, from, ps, e) && (t[e] == '\'' || t[e] == '"')
    requires forall k :: e < k < |t| ==> t[k] != t[e]
    ensures var out := AddedAll(Outer("", []), ps);
            ScanFrom(t, token, from) == Outer(out.outside + if t[e] == '"' then " ident " else " 0 ", out.groups)
  {
    var out := AddedAll(Outer("", []), ps);
    var mark := if t[e] == '"' then " ident " else " 0 ";
    hide *;
    PartsRead(t, token, from, ps, e);
    NeverCloses(t, t[e], EscapeString(t, e, 0, false), e + 1, |t|);
    OpenLook(t, token, e);
    OverScanned(t, token, e, |t|, mark, 0, 0, out);
    AtEnd(t, token, Keep(out, 0, mark));
    Kept(out, mark);
  }

  lemma Kept(out: Outer, mark: string)
    ensures Keep(out, 0, mark) == Outer(out.outside + mark, out.groups)
  {
  }

  lemma OpenLook(t: string, token: Option<string>, e: nat)
    requires e < |t| && (t[e] == '\'' || t[e] == '"') && !StopsAt(t, token, e)
    requires QuoteEndFrom(t, t[e], EscapeString(t, e, 0, false), e + 1, |t|).None?
    ensures LookAt(t, token, e, 0) == Over(|t|, if t[e] == '"' then " ident " else " 0 ")
  {
    hide QuoteEndFrom, EscapeString, StopsAt, DelimiterFrom, FirstOccurrence;
  }

  /** A delimiter that never comes again is dropped, and the reading goes on behind it. */
  lemma OpenDollar(t: string, token: Option<string>, from: nat, ps: seq<Piece>, e: nat, tag: string)
    requires Before(t, token, from, ps, e) && (e > 0 ==> !IdentChar(t[e - 1]))
    requires IsTag(tag) && e + |tag| + 2 <= |t| && t[e..e + |tag| + 2] == Delimiter(tag)
    requires forall k: nat :: e + |tag| + 2 <= k ==> !OccursAt(t, Delimiter(tag), k)
    ensures ScanFrom(t, token, from) == Scan(t, token, e + |tag| + 2, 0, 0, AddedAll(Outer("", []), ps))
  {
    hide *;
    var d, out := Delimiter(tag), AddedAll(Outer("", []), ps);
    DelimiterSigns(tag);
    assert t[e] == t[e..e + |tag| + 2][0];
    PartsRead(t, token, from, ps, e);
    DelimiterRead(t, e, tag);
    NotAgain(t, d, e + |d|);
    DropLook(t, token, e, d);
    OverScanned(t, token, e, e + |d|, "", 0, 0, out);
    assert Keep(out, 0, "") == out by { NothingKept(out); }
  }

  lemma NotAgain(t: string, d: string, p: nat)
    requires forall k: nat :: p <= k ==> !OccursAt(t, d, k)
    ensures FirstOccurrence(t, d, p, |t|).None?
  {
    hide OccursAt, FirstOccurrence;
    FirstOccurs(t, d, p, |t|);
  }

  lemma NothingKept(out: Outer)
    ensures Keep(out, 0, "") == out
  {
    assert out.outside + "" == out.outside;
  }

  lemma DropLook(t: string, token: Option<string>, e: nat, d: string)
    requires e < |t| && t[e] == '$' && !StopsAt(t, token, e) && (e > 0 ==> !IdentChar(t[e - 1]))
    requires DelimiterFrom(t, e) == Some(d) && e + |d| <= |t| && FirstOccurrence(t, d, e + |d|, |t|).None?
    ensures LookAt(t, token, e, 0) == Over(e + |d|, "")
  {
    hide DelimiterFrom, FirstOccurrence, StopsAt, IdentChar, QuoteEnd;
  }
}
