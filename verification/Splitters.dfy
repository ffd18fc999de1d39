/** The three statement splitters of the migration runners. A splitter cuts the
    text at semicolons outside dollar quotes; it differs from the others in what
    it takes for a dollar quote and in what it does with the pieces. */
module Splitters {
  import opened PythonText
  import opened Wrappers

  // ----- pieces -----

  /** The pieces between the cuts, from `start` on; no empty piece behind the last cut. */
  function Pieces(t: string, start: nat, cuts: seq<nat>): seq<string>
    requires start <= |t| && Increasing(cuts, start, |t|)
    decreases |cuts|
  {
    if cuts == [] then (if start < |t| then [t[start..]] else [])
    else [t[start..cuts[0]]] + Pieces(t, cuts[0] + 1, cuts[1..])
  }

  ghost predicate Increasing(cuts: seq<nat>, from: nat, to: nat) {
    && (forall k :: 0 <= k < |cuts| ==> from <= cuts[k] < to)
    && (forall j, k :: 0 <= j < k < |cuts| ==> cuts[j] < cuts[k])
  }

  function Join(pieces: seq<string>): string {
    if pieces == [] then ""
    else if |pieces| == 1 then pieces[0]
    else pieces[0] + ";" + Join(pieces[1..])
  }

  function FinalCut(t: string, cuts: seq<nat>): string {
    if cuts != [] && cuts[|cuts| - 1] == |t| - 1 then ";" else ""
  }

  /** The cut texts joined again give the text, but for a semicolon at its very end. */
  lemma {:induction false} PiecesLossless(t: string, start: nat, cuts: seq<nat>)
    requires start <= |t| && Increasing(cuts, start, |t|) && forall c | c in cuts :: t[c] == ';'
    ensures t[start..] == Join(Pieces(t, start, cuts)) + FinalCut(t, cuts)
    decreases |cuts|
  {
    hide Pieces, Join, FinalCut;
    if cuts == [] {
      PiecesUncut(t, start);
    } else {
      var c, later := cuts[0], cuts[1..];
      assert c in cuts && forall d | d in later :: d in cuts;
      PiecesLossless(t, c + 1, later);
      PiecesStep(t, start, cuts);
      var a, rest := t[start..c], Pieces(t, c + 1, later);
      JoinFirst(a, rest);
      Glue(t[start..], a, t[c + 1..], Join(rest), FinalCut(t, later), Join([a] + rest), FinalCut(t, cuts), rest == []);
    }
  }

  lemma PiecesUncut(t: string, start: nat)
    requires start <= |t|
    ensures t[start..] == Join(Pieces(t, start, [])) + FinalCut(t, [])
  {
  }

  lemma PiecesStep(t: string, start: nat, cuts: seq<nat>)
    requires cuts != [] && start <= |t| && Increasing(cuts, start, |t|) && t[cuts[0]] == ';'
    ensures var c := cuts[0];
            var rest := Pieces(t, c + 1, cuts[1..]);
            && Pieces(t, start, cuts) == [t[start..c]] + rest && t[start..] == t[start..c] + (";" + t[c + 1..])
            && (rest == [] ==> t[c + 1..] == "" && FinalCut(t, cuts) == ";" && FinalCut(t, cuts[1..]) == "")
            && (rest != [] ==> FinalCut(t, cuts) == FinalCut(t, cuts[1..]))
  {
  }

  lemma Glue(whole: string, a: string, after: string, laterJoined: string, laterTail: string,
             joined: string, tail: string, none: bool)
    requires whole == a + (";" + after) && after == laterJoined + laterTail
    requires none ==> after == "" && joined == a && tail == ";"
    requires !none ==> joined == a + ";" + laterJoined && tail == laterTail
    ensures whole == joined + tail
  {
  }

  lemma JoinFirst(first: string, rest: seq<string>)
    ensures Join([first] + rest) == if rest == [] then first else first + ";" + Join(rest)
  {
    assert ([first] + rest)[1..] == rest;
  }

  // ----- reading pieces -----

  /** `result` and the text from `start` to i have been read; the cuts still to come give the whole. */
  ghost predicate Reading(t: string, result: seq<string>, start: nat, i: nat, cuts: seq<nat>, whole: seq<string>)
    ensures Reading(t, result, start, i, cuts, whole) ==> start <= i <= |t|
  {
    start <= i <= |t| && Increasing(cuts, i, |t|) && Increasing(cuts, start, |t|) && result + Pieces(t, start, cuts) == whole
  }

  lemma ReadOn(t: string, result: seq<string>, start: nat, i: nat, k: nat, cuts: seq<nat>, whole: seq<string>)
    requires Reading(t, result, start, i, cuts, whole) && i <= k <= |t| && Increasing(cuts, k, |t|)
    ensures Reading(t, result, start, k, cuts, whole) && t[start..i] + t[i..k] == t[start..k]
  {
  }

  lemma ReadCut(t: string, result: seq<string>, start: nat, i: nat, cuts: seq<nat>, rest: seq<nat>, whole: seq<string>)
    requires Reading(t, result, start, i, cuts, whole) && i < |t| && cuts == [i] + rest && Increasing(rest, i + 1, |t|)
    ensures Reading(t, result + [t[start..i]], i + 1, i + 1, rest, whole)
  {
    assert cuts[1..] == rest;
    Regroup(result, [t[start..i]], Pieces(t, i + 1, rest));
  }

  lemma ReadEnd(t: string, result: seq<string>, start: nat, whole: seq<string>)
    requires Reading(t, result, start, |t|, [], whole)
    ensures whole == if t[start..] == "" then result else result + [t[start..]]
  {
  }

  lemma Regroup(a: seq<string>, b: seq<string>, c: seq<string>)
    ensures a + (b + c) == a + b + c
  {
  }

  // ----- the splitter that knows only $$ -----

  predicate DoubleAt(t: string, i: nat) { i + 1 < |t| && t[i] == '$' && t[i + 1] == '$' }

  /** Where it cuts, from i on; `inside` a $$ body nothing is cut. */
  function DoubleCuts(t: string, i: nat, inside: bool): (cuts: seq<nat>)
    ensures Increasing(cuts, i, |t|) && forall c | c in cuts :: t[c] == ';'
    decreases |t| - i
  {
    if i >= |t| then []
    else if DoubleAt(t, i) then DoubleCuts(t, i + 2, !inside)
    else if t[i] == ';' && !inside then [i] + DoubleCuts(t, i + 1, inside)
    else DoubleCuts(t, i + 1, inside)
  }

  method SplitAtDouble(t: string) returns (result: seq<string>)
    ensures result == Pieces(t, 0, DoubleCuts(t, 0, false))
  {
    hide Reading, Pieces, Increasing;
    result := [];
    var buffer := "";
    ghost var start: nat, whole := 0, Pieces(t, 0, DoubleCuts(t, 0, false));
    var i, inside := 0, false;
    StartReading(t, DoubleCuts(t, 0, false));
    while i < |t|
      invariant Reading(t, result, start, i, DoubleCuts(t, i, inside), whole)
      invariant buffer == t[start..i]
      decreases |t| - i
    {
      ghost var cuts := DoubleCuts(t, i, inside);
      if DoubleAt(t, i) {
        inside := !inside;
        buffer := buffer + "$$";
        assert t[i..i + 2] == "$$";
        ReadOn(t, result, start, i, i + 2, cuts, whole);
        i := i + 2;
        continue;
      }
      if t[i] == ';' && !inside {
        ReadCut(t, result, start, i, cuts, DoubleCuts(t, i + 1, inside), whole);
        result := result + [buffer];
        buffer, start := "", i + 1;
      } else {
        ReadOn(t, result, start, i, i + 1, cuts, whole);
        buffer := buffer + [t[i]];
        assert t[i..i + 1] == [t[i]];
      }
      i := i + 1;
    }
    assert t[start..i] == t[start..];
    ReadEnd(t, result, start, whole);
    if buffer != "" {
      result := result + [buffer];
    }
  }

  lemma StartReading(t: string, cuts: seq<nat>)
    requires Increasing(cuts, 0, |t|)
    ensures Reading(t, [], 0, 0, cuts, Pieces(t, 0, cuts))
  {
  }

  // ----- the splitter that strips and filters -----

  /** The pieces without outer blanks, and none that is empty then. */
  function Statements(pieces: seq<string>): seq<string> {
    if pieces == [] then []
    else (if Stripped(pieces[0]) != [] then [Stripped(pieces[0])] else []) + Statements(pieces[1..])
  }

  lemma {:induction false} StatementsAppend(p: seq<string>, q: seq<string>)
    ensures Statements(p + q) == Statements(p) + Statements(q)
  {
    if p == [] {
      assert p + q == q;
    } else {
      assert (p + q)[1..] == p[1..] + q;
      StatementsAppend(p[1..], q);
      Regroup(if Stripped(p[0]) != [] then [Stripped(p[0])] else [], Statements(p[1..]), Statements(q));
    }
  }

  lemma StatementsOne(x: string)
    ensures Statements([x]) == if Stripped(x) != [] then [Stripped(x)] else []
  {
    assert [x][1..] == [];
  }

  /** It gives what the runner of the $$ splitter executes: the stripped pieces that are not empty. */
  method SplitAndStrip(t: string) returns (statements: seq<string>)
    ensures statements == Statements(Pieces(t, 0, DoubleCuts(t, 0, false)))
  {
    hide Reading, Pieces, Increasing, Statements, Stripped;
    statements := [];
    var buf := "";
    ghost var result: seq<string>, start: nat, whole := [], 0, Pieces(t, 0, DoubleCuts(t, 0, false));
    var i, inside := 0, false;
    StartReading(t, DoubleCuts(t, 0, false));
    StatementsNone();
    while i < |t|
      invariant Reading(t, result, start, i, DoubleCuts(t, i, inside), whole)
      invariant buf == t[start..i] && statements == Statements(result)
      decreases |t| - i
    {
      ghost var cuts := DoubleCuts(t, i, inside);
      if DoubleAt(t, i) {
        inside := !inside;
        buf := buf + "$$";
        assert t[i..i + 2] == "$$";
        ReadOn(t, result, start, i, i + 2, cuts, whole);
        i := i + 2;
      } else if t[i] == ';' && !inside {
        ReadCut(t, result, start, i, cuts, DoubleCuts(t, i + 1, inside), whole);
        var stmt := Stripped(buf);
        StatementsOne(buf);
        StatementsAppend(result, [buf]);
        if stmt != "" {
          statements := statements + [stmt];
        }
        result := result + [buf];
        buf, start := "", i + 1;
        i := i + 1;
      } else {
        ReadOn(t, result, start, i, i + 1, cuts, whole);
        buf := buf + [t[i]];
        assert t[i..i + 1] == [t[i]];
        i := i + 1;
      }
    }
    assert t[start..i] == t[start..];
    ReadEnd(t, result, start, whole);
    var stmt := Stripped(buf);
    StatementsOne(buf);
    StatementsAppend(result, [buf]);
    StrippedEmpty();
    if stmt != "" {
      statements := statements + [stmt];
    }
  }

  lemma StatementsNone()
    ensures Statements([]) == []
  {
  }

  lemma StrippedEmpty()
    ensures Stripped("") == ""
  {
  }

  // ----- the splitter that knows tags -----

  /** Letters, digits and underscores; what counts as a letter is left open, but neither '$' nor ';' does. */
  ghost predicate AreWords(word: char -> bool) { !word('$') && !word(';') }

  function WordStop(t: string, j: nat, word: char -> bool): (r: nat)
    requires j <= |t|
    ensures j <= r <= |t|
    decreases |t| - j
  {
    if j < |t| && word(t[j]) then WordStop(t, j + 1, word) else j
  }

  /** The tag $word$ at i. */
  function TagAt(t: string, i: nat, word: char -> bool): (tag: Option<string>)
    requires i < |t|
    ensures tag.Some? ==> |tag.value| >= 2 && i + |tag.value| <= |t| && t[i..i + |tag.value|] == tag.value
  {
    var j := WordStop(t, i + 1, word);
    if t[i] == '$' && j < |t| && t[j] == '$' then Some(t[i..j + 1]) else None
  }

  /** A tag is two dollar signs with word characters between them. */
  lemma TagWritten(t: string, i: nat, word: char -> bool, d: string)
    requires i < |t| && !word('$')
    ensures TagAt(t, i, word) == Some(d) <==>
            i + |d| <= |t| && t[i..i + |d|] == d && exists name :: IsName(name, word) && d == "$" + name + "$"
  {
    WordStopIs(t, i + 1, word);
    var j := WordStop(t, i + 1, word);
    if TagAt(t, i, word) == Some(d) {
      assert IsName(t[i + 1..j], word) && d == "$" + t[i + 1..j] + "$";
    }
    if i + |d| <= |t| && t[i..i + |d|] == d {
      if name :| IsName(name, word) && d == "$" + name + "$" {
        NameStops(t, i, word, name);
      }
    }
  }

  predicate IsName(name: string, word: char -> bool) { forall k :: 0 <= k < |name| ==> word(name[k]) }

  lemma NameStops(t: string, i: nat, word: char -> bool, name: string)
    requires var d := "$" + name + "$"; i + |d| <= |t| && t[i..i + |d|] == d
    requires !word('$') && IsName(name, word)
    ensures TagAt(t, i, word) == Some("$" + name + "$")
  {
    var d := "$" + name + "$";
    var e := i + 1 + |name|;
    assert t[i] == t[i..i + |d|][0] && t[e] == t[i..i + |d|][|name| + 1] == '$';
    forall k | i + 1 <= k < e
      ensures word(t[k])
    {
      assert t[k] == t[i..i + |d|][k - i] == d[k - i] == name[k - i - 1];
    }
    WordStopIs(t, i + 1, word);
    assert WordStop(t, i + 1, word) == e;
  }

  lemma {:induction false} WordStopIs(t: string, j: nat, word: char -> bool)
    requires j <= |t|
    ensures var r := WordStop(t, j, word); (forall k :: j <= k < r ==> word(t[k])) && (r < |t| ==> !word(t[r]))
    decreases |t| - j
  {
    if j < |t| && word(t[j]) {
      WordStopIs(t, j + 1, word);
    }
  }

  /** Where it cuts, from i on; inside a body opened by `open` nothing is cut. */
  function TagCuts(t: string, i: nat, open: Option<string>, word: char -> bool): (cuts: seq<nat>)
    requires i <= |t|
    ensures Increasing(cuts, i, |t|) && forall c | c in cuts :: t[c] == ';'
    decreases |t| - i
  {
    if i == |t| then []
    else
      var tag := TagAt(t, i, word);
      if tag.Some? && (open.None? || tag == open) then
        TagCuts(t, i + |tag.value|, if open.None? then tag else None, word)
      else if t[i] == ';' && open.None? then [i] + TagCuts(t, i + 1, open, word)
      else TagCuts(t, i + 1, open, word)
  }

  lemma OneChar(t: string, i: nat)
    requires i < |t|
    ensures t[i..i + 1] == [t[i]]
  {
  }

  method SplitAtTags(t: string, word: char -> bool) returns (statements: seq<string>)
    ensures statements == Pieces(t, 0, TagCuts(t, 0, None, word))
  {
    hide Reading, Pieces, Increasing, TagAt;
    statements := [];
    var buf := "";
    ghost var start: nat, whole := 0, Pieces(t, 0, TagCuts(t, 0, None, word));
    var i: nat, open: Option<string> := 0, None;
    StartReading(t, TagCuts(t, 0, None, word));
    while i < |t|
      invariant i <= |t|
      invariant Reading(t, statements, start, i, TagCuts(t, i, open, word), whole)
      invariant buf == t[start..i]
      decreases |t| - i
    {
      var tag := TagAt(t, i, word);
      ghost var cuts := TagCuts(t, i, open, word);
      if tag.Some? && (open.None? || tag == open) {
        open := if open.None? then tag else None;
        buf := buf + tag.value;
        ReadOn(t, statements, start, i, i + |tag.value|, cuts, whole);
        i := i + |tag.value|;
        continue;
      }
      if t[i] == ';' && open.None? {
        ReadCut(t, statements, start, i, cuts, TagCuts(t, i + 1, open, word), whole);
        statements := statements + [buf];
        buf, start := "", i + 1;
      } else {
        ReadOn(t, statements, start, i, i + 1, cuts, whole);
        OneChar(t, i);
        buf := buf + [t[i]];
      }
      i := i + 1;
    }
    assert t[start..i] == t[start..];
    ReadEnd(t, statements, start, whole);
    if buf != "" {
      statements := statements + [buf];
    }
  }

  // ----- agreement -----

  /** Reading with $$ only, no tag with a name is met outside a body. */
  ghost predicate NoNamedTag(t: string, i: nat, inside: bool, word: char -> bool)
    decreases |t| - i
  {
    i >= |t| ||
    (if DoubleAt(t, i) then NoNamedTag(t, i + 2, !inside, word)
     else (inside || TagAt(t, i, word).None?) && NoNamedTag(t, i + 1, inside, word))
  }

  lemma DoubleIsTag(t: string, i: nat, word: char -> bool)
    requires i < |t| && AreWords(word)
    ensures DoubleAt(t, i) <==> TagAt(t, i, word) == Some("$$")
  {
    var tag := TagAt(t, i, word);
    if DoubleAt(t, i) {
      assert t[i..i + 2] == "$$";
    }
    if tag == Some("$$") {
      assert t[i] == t[i..i + 2][0] && t[i + 1] == t[i..i + 2][1];
    }
  }

  /** Then both splitters cut at the same places. */
  lemma {:induction false} SplittersAgree(t: string, i: nat, inside: bool, word: char -> bool)
    requires i <= |t| && AreWords(word) && NoNamedTag(t, i, inside, word)
    ensures TagCuts(t, i, if inside then Some("$$") else None, word) == DoubleCuts(t, i, inside)
    decreases |t| - i
  {
    if i < |t| {
      DoubleIsTag(t, i, word);
      if DoubleAt(t, i) {
        SplittersAgree(t, i + 2, !inside, word);
      } else {
        SplittersAgree(t, i + 1, inside, word);
      }
    }
  }

  // ----- bodies of tags -----

  /** A dollar-quoted body with its tags: where it starts, and where it ends behind the closing tag. */
  datatype Body = Body(from: nat, end: nat)

  /** The body that the tag at `from` opens reaches to the first equal tag behind it, or to the end of
      the text. */
  ghost predicate IsBody(t: string, b: Body, word: char -> bool) {
    b.from < |t| && TagAt(t, b.from, word).Some? && b.from < b.end <= |t| &&
    var tag := TagAt(t, b.from, word).value;
    var start := b.from + |tag|;
    || ClosesAt(t, start, b.end - |tag|, b.end, tag, word)
    || (b.end == |t| && NeverCloses(t, start, tag, word))
  }

  ghost predicate ClosesAt(t: string, start: nat, q: int, end: nat, tag: string, word: char -> bool) {
    && start <= q < |t| && q + |tag| == end <= |t| && TagAt(t, q, word) == Some(tag)
    && forall r :: start <= r < q ==> TagAt(t, r, word) != Some(tag)
  }

  ghost predicate NeverCloses(t: string, start: nat, tag: string, word: char -> bool) {
    forall r :: start <= r < |t| ==> TagAt(t, r, word) != Some(tag)
  }

  ghost predicate Within(p: nat, bodies: seq<Body>) {
    exists k :: 0 <= k < |bodies| && bodies[k].from <= p < bodies[k].end
  }

  /** The bodies from i on: in order, apart, and no tag outside them. */
  ghost predicate AreBodies(t: string, i: nat, bodies: seq<Body>, word: char -> bool) {
    && (forall k :: 0 <= k < |bodies| ==> i <= bodies[k].from && IsBody(t, bodies[k], word))
    && (forall j, k :: 0 <= j < k < |bodies| ==> bodies[j].end <= bodies[k].from)
    && (forall p :: i <= p < |t| && !Within(p, bodies) ==> TagAt(t, p, word).None?)
  }

  lemma WithinSplit(p: nat, bodies: seq<Body>)
    requires bodies != []
    ensures Within(p, bodies) <==> bodies[0].from <= p < bodies[0].end || Within(p, bodies[1..])
  {
    var rest := bodies[1..];
    if Within(p, bodies) {
      var k :| 0 <= k < |bodies| && bodies[k].from <= p < bodies[k].end;
      assert k > 0 ==> rest[k - 1] == bodies[k];
    }
    if Within(p, rest) {
      var k :| 0 <= k < |rest| && rest[k].from <= p < rest[k].end;
      assert bodies[k + 1] == rest[k];
    }
  }

  /** The first body, and the rest behind it. */
  lemma BodiesSplit(t: string, i: nat, bodies: seq<Body>, word: char -> bool)
    requires bodies != [] && AreBodies(t, i, bodies, word)
    ensures IsBody(t, bodies[0], word) && i <= bodies[0].from && AreBodies(t, bodies[0].end, bodies[1..], word)
    ensures forall k :: 0 <= k < |bodies[1..]| ==> bodies[0].end <= bodies[1..][k].from
  {
    hide IsBody, TagAt;
    var rest := bodies[1..];
    forall k | 0 <= k < |rest|
      ensures bodies[0].end <= rest[k].from && IsBody(t, rest[k], word)
    {
      assert rest[k] == bodies[k + 1];
    }
    forall j, k | 0 <= j < k < |rest|
      ensures rest[j].end <= rest[k].from
    {
      assert rest[j] == bodies[j + 1] && rest[k] == bodies[k + 1];
    }
    BodyEnds(t, bodies[0], word);
    forall p | bodies[0].end <= p < |t| && !Within(p, rest)
      ensures TagAt(t, p, word).None?
    {
      WithinSplit(p, bodies);
    }
  }

  lemma NotYet(t: string, i: nat, bodies: seq<Body>, word: char -> bool)
    requires AreBodies(t, i, bodies, word) && i < |t| && (bodies == [] || bodies[0].from != i)
    ensures !Within(i, bodies) && TagAt(t, i, word).None? && AreBodies(t, i + 1, bodies, word)
  {
    hide IsBody, TagAt;
    forall k | 0 <= k < |bodies|
      ensures i < bodies[k].from
    {
      assert bodies[0].from < bodies[0].end by { BodyEnds(t, bodies[0], word); }
      assert k > 0 ==> bodies[0].end <= bodies[k].from;
    }
  }

  lemma BodyEnds(t: string, b: Body, word: char -> bool)
    requires IsBody(t, b, word)
    ensures b.from < b.end <= |t|
  {
  }

  /** Inside a body nothing is cut; behind it the reading goes on outside. */
  lemma {:induction false} BodyCuts(t: string, j: nat, q: nat, end: nat, tag: string, word: char -> bool)
    requires j <= q && ClosesAt(t, j, q, end, tag, word)
    ensures TagCuts(t, j, Some(tag), word) == TagCuts(t, end, None, word)
    decreases q - j
  {
    hide TagAt;
    if j < q {
      BodyCuts(t, j + 1, q, end, tag, word);
    }
  }

  lemma {:induction false} OpenBodyCuts(t: string, j: nat, tag: string, word: char -> bool)
    requires j <= |t| && NeverCloses(t, j, tag, word)
    ensures TagCuts(t, j, Some(tag), word) == []
    decreases |t| - j
  {
    hide TagAt;
    if j < |t| {
      OpenBodyCuts(t, j + 1, tag, word);
    }
  }

  lemma TagHere(t: string, b: Body, word: char -> bool)
    requires IsBody(t, b, word)
    ensures TagCuts(t, b.from, None, word) == TagCuts(t, b.end, None, word)
  {
    hide TagAt;
    var tag := TagAt(t, b.from, word).value;
    var start := b.from + |tag|;
    if ClosesAt(t, start, b.end - |tag|, b.end, tag, word) {
      BodyCuts(t, start, b.end - |tag|, b.end, tag, word);
    } else {
      OpenBodyCuts(t, start, tag, word);
    }
  }

  lemma TagCutsFrom(t: string, i: nat, word: char -> bool)
    requires i <= |t|
    ensures forall c | c in TagCuts(t, i, None, word) :: i <= c < |t| && t[c] == ';'
  {
    assert Increasing(TagCuts(t, i, None, word), i, |t|);
  }

  lemma NoTagHere(t: string, i: nat, word: char -> bool)
    requires i < |t| && TagAt(t, i, word).None?
    ensures TagCuts(t, i, None, word) == (if t[i] == ';' then [i] else []) + TagCuts(t, i + 1, None, word)
  {
    hide TagAt;
  }

  /** A semicolon is cut exactly when it stands outside the bodies, whatever their tags are. */
  lemma {:induction false} TagCutsOutsideBodies(t: string, i: nat, bodies: seq<Body>, word: char -> bool, p: nat)
    requires AreBodies(t, i, bodies, word) && i <= p < |t| && t[p] == ';'
    ensures p in TagCuts(t, i, None, word) <==> !Within(p, bodies)
    decreases |t| - i
  {
    hide TagCuts, TagAt, AreBodies, Within, IsBody;
    if bodies != [] && bodies[0].from == i {
      var b, rest := bodies[0], bodies[1..];
      BodiesSplit(t, i, bodies, word);
      BodyEnds(t, b, word);
      TagHere(t, b, word);
      WithinSplit(p, bodies);
      if p < b.end {
        TagCutsFrom(t, b.end, word);
      } else {
        TagCutsOutsideBodies(t, b.end, rest, word, p);
      }
    } else {
      NotYet(t, i, bodies, word);
      NoTagHere(t, i, word);
      TagCutsFrom(t, i + 1, word);
      if p > i {
        TagCutsOutsideBodies(t, i + 1, bodies, word, p);
      }
    }
  }

  /** A body with bodies behind it. */
  ghost predicate OneMore(t: string, i: nat, bodies: seq<Body>, word: char -> bool) {
    && bodies != [] && IsBody(t, bodies[0], word) && bodies[0].from == i
    && AreBodies(t, bodies[0].end, bodies[1..], word)
  }

  lemma OneMoreAt(t: string, i: nat, bodies: seq<Body>, word: char -> bool, k: nat)
    requires OneMore(t, i, bodies, word) && k < |bodies|
    ensures i <= bodies[k].from && IsBody(t, bodies[k], word) && (k > 0 ==> bodies[0].end <= bodies[k].from)
  {
    BodyEnds(t, bodies[0], word);
    hide IsBody, TagAt, Within;
    if k > 0 {
      assert bodies[k] == bodies[1..][k - 1];
    }
  }

  lemma OneMoreInOrder(t: string, i: nat, bodies: seq<Body>, word: char -> bool, j: nat, k: nat)
    requires OneMore(t, i, bodies, word) && 0 < j < k < |bodies|
    ensures bodies[j].end <= bodies[k].from
  {
    hide IsBody, TagAt, Within;
    var rest := bodies[1..];
    assert bodies[k] == rest[k - 1] && bodies[j] == rest[j - 1];
  }

  lemma OneMoreGap(t: string, i: nat, bodies: seq<Body>, word: char -> bool, p: nat)
    requires OneMore(t, i, bodies, word) && i <= p < |t| && !Within(p, bodies)
    ensures TagAt(t, p, word).None?
  {
    WithinSplit(p, bodies);
    hide IsBody, TagAt, Within;
    assert bodies[0].end <= p;
  }

  lemma BodyFirst(t: string, i: nat, bodies: seq<Body>, word: char -> bool)
    requires OneMore(t, i, bodies, word)
    ensures AreBodies(t, i, bodies, word)
  {
    hide IsBody, TagAt, Within, OneMore;
    forall k | 0 <= k < |bodies|
      ensures i <= bodies[k].from && IsBody(t, bodies[k], word)
    {
      OneMoreAt(t, i, bodies, word, k);
    }
    forall j, k | 0 <= j < k < |bodies|
      ensures bodies[j].end <= bodies[k].from
    {
      OneMoreAt(t, i, bodies, word, k);
      if j > 0 {
        OneMoreInOrder(t, i, bodies, word, j, k);
      }
    }
    forall p | i <= p < |t| && !Within(p, bodies)
      ensures TagAt(t, p, word).None?
    {
      OneMoreGap(t, i, bodies, word, p);
    }
  }

  lemma NoBodyHere(t: string, i: nat, bodies: seq<Body>, word: char -> bool)
    requires i < |t| && TagAt(t, i, word).None? && AreBodies(t, i + 1, bodies, word)
    ensures AreBodies(t, i, bodies, word)
  {
    hide IsBody, TagAt;
  }

  /** Every text has its bodies. */
  lemma {:induction false} BodiesExist(t: string, i: nat, word: char -> bool) returns (bodies: seq<Body>)
    requires i <= |t|
    ensures AreBodies(t, i, bodies, word)
    decreases |t| - i
  {
    hide TagAt;
    if i == |t| {
      bodies := [];
    } else {
      hide AreBodies, IsBody;
      if TagAt(t, i, word).None? {
        bodies := BodiesExist(t, i + 1, word);
        NoBodyHere(t, i, bodies, word);
      } else {
        var b := BodyExists(t, i, word);
        BodyEnds(t, b, word);
        var rest := BodiesExist(t, b.end, word);
        bodies := [b] + rest;
        assert bodies[1..] == rest;
        BodyFirst(t, i, bodies, word);
      }
    }
  }

  lemma BodyExists(t: string, i: nat, word: char -> bool) returns (b: Body)
    requires i < |t| && TagAt(t, i, word).Some?
    ensures IsBody(t, b, word) && b.from == i && b.end > i
  {
    hide TagAt;
    var tag := TagAt(t, i, word).value;
    var q := FirstTag(t, i + |tag|, tag, word);
    if q.None? {
      b := Body(i, |t|);
    } else {
      b := Body(i, q.value + |tag|);
      assert ClosesAt(t, i + |tag|, b.end - |tag|, b.end, tag, word);
    }
  }

  lemma {:induction false} FirstTag(t: string, j: nat, tag: string, word: char -> bool) returns (q: Option<nat>)
    requires j <= |t|
    ensures q.None? ==> NeverCloses(t, j, tag, word)
    ensures q.Some? ==> ClosesAt(t, j, q.value, q.value + |tag|, tag, word)
    decreases |t| - j
  {
    hide TagAt;
    if j == |t| {
      q := None;
    } else if TagAt(t, j, word) == Some(tag) {
      q := Some(j);
    } else {
      q := FirstTag(t, j + 1, tag, word);
    }
  }

  /** With a named tag they do not. */
  lemma NamedTagDiffers()
    ensures var t, word := "$a$;$a$", (c: char) => c == 'a'; TagCuts(t, 0, None, word) != DoubleCuts(t, 0, false)
  {
    var t, word := "$a$;$a$", (c: char) => c == 'a';
    assert WordStop(t, 1, word) == 2 && t[0..3] == "$a$";
    assert WordStop(t, 5, word) == 6 && t[4..7] == "$a$";
    assert TagCuts(t, 4, Some("$a$"), word) == [];
    assert TagCuts(t, 3, Some("$a$"), word) == [];
    assert DoubleCuts(t, 3, false)[0] == 3;
    assert DoubleCuts(t, 0, false) == DoubleCuts(t, 1, false) == DoubleCuts(t, 2, false) == DoubleCuts(t, 3, false);
  }

  // ----- cuts and dollar bodies -----

  /** The number of $$ marks met when reading from i to p. */
  ghost function Marks(t: string, i: nat, p: nat): nat
    decreases p - i
  {
    if i >= p || i >= |t| then 0
    else if DoubleAt(t, i) then 1 + Marks(t, i + 2, p)
    else Marks(t, i + 1, p)
  }

  lemma CutHere(t: string, i: nat, inside: bool, p: nat)
    requires i <= p < |t| && t[p] == ';'
    ensures DoubleAt(t, i) ==> i + 2 <= p && (p in DoubleCuts(t, i, inside) <==> p in DoubleCuts(t, i + 2, !inside))
    ensures !DoubleAt(t, i) && i < p ==> (p in DoubleCuts(t, i, inside) <==> p in DoubleCuts(t, i + 1, inside))
    ensures i == p ==> (p in DoubleCuts(t, i, inside) <==> !inside)
  {
    if !DoubleAt(t, i) {
      var rest := DoubleCuts(t, i + 1, inside);
      CutsNotBefore(t, i + 1, inside);
      assert DoubleCuts(t, i, inside) == if t[i] == ';' && !inside then [i] + rest else rest;
    }
  }

  lemma CutsNotBefore(t: string, i: nat, inside: bool)
    ensures forall c | c in DoubleCuts(t, i, inside) :: c >= i
  {
    assert Increasing(DoubleCuts(t, i, inside), i, |t|);
  }

  /** A semicolon is cut exactly when the $$ marks before it pair up. */
  lemma {:induction false} CutsOutsideBodies(t: string, i: nat, inside: bool, p: nat)
    requires i <= p < |t| && t[p] == ';'
    ensures p in DoubleCuts(t, i, inside) <==> (Marks(t, i, p) % 2 == 0) == !inside
    decreases |t| - i
  {
    hide DoubleCuts, Increasing;
    CutHere(t, i, inside, p);
    if DoubleAt(t, i) {
      CutsOutsideBodies(t, i + 2, !inside, p);
      var m := Marks(t, i + 2, p);
      assert Marks(t, i, p) == 1 + m && (1 + m) % 2 == 1 - m % 2;
    } else if i < p {
      CutsOutsideBodies(t, i + 1, inside, p);
    }
  }

  // ----- exactly when the two agree -----

  lemma {:induction false} SameMembers(a: seq<nat>, b: seq<nat>, from: nat, to: nat)
    requires Increasing(a, from, to) && Increasing(b, from, to)
    requires forall x :: x in a <==> x in b
    ensures a == b
    decreases |a|
  {
    assert a != [] ==> a[0] in b;
    assert b != [] ==> b[0] in a;
    if a != [] {
      FirstMember(a, b, from, to);
      var c, p, q := a[0], a[1..], b[1..];
      assert a == [c] + p && b == [c] + q;
      forall x
        ensures x in p <==> x in q
      {
        TailMember(a, from, to, x);
        TailMember(b, from, to, x);
      }
      TailIncreases(a, from, to);
      TailIncreases(b, from, to);
      SameMembers(p, q, c + 1, to);
    }
  }

  lemma FirstMember(a: seq<nat>, b: seq<nat>, from: nat, to: nat)
    requires Increasing(a, from, to) && Increasing(b, from, to) && a != []
    requires forall x :: x in a <==> x in b
    ensures b != [] && a[0] == b[0]
  {
    assert a[0] in a;
    assert b[0] in b;
    var j :| 0 <= j < |b| && b[j] == a[0];
    var k :| 0 <= k < |a| && a[k] == b[0];
  }

  lemma TailIncreases(a: seq<nat>, from: nat, to: nat)
    requires Increasing(a, from, to) && a != []
    ensures Increasing(a[1..], a[0] + 1, to)
  {
  }

  lemma TailMember(a: seq<nat>, from: nat, to: nat, x: nat)
    requires Increasing(a, from, to) && a != []
    ensures x in a[1..] <==> x in a && x != a[0]
  {
    assert a == [a[0]] + a[1..];
    if x in a[1..] {
      var k :| 0 <= k < |a[1..]| && a[1..][k] == x;
      assert a[k + 1] == x;
    }
  }

  /** The two splitters cut a text at the same places exactly when every semicolon stands in the body of
      a tag just when an odd number of $$ marks stands before it. */
  lemma SplittersAgreeExactly(t: string, bodies: seq<Body>, word: char -> bool)
    requires AreBodies(t, 0, bodies, word)
    ensures TagCuts(t, 0, None, word) == DoubleCuts(t, 0, false)
       <==> forall p | 0 <= p < |t| && t[p] == ';' :: Within(p, bodies) <==> Marks(t, 0, p) % 2 == 1
  {
    var a, b := TagCuts(t, 0, None, word), DoubleCuts(t, 0, false);
    forall p | 0 <= p < |t| && t[p] == ';'
      ensures p in a <==> !Within(p, bodies)
      ensures p in b <==> Marks(t, 0, p) % 2 == 0
    {
      TagCutsOutsideBodies(t, 0, bodies, word, p);
      CutsOutsideBodies(t, 0, false, p);
    }
    assert Increasing(a, 0, |t|) && Increasing(b, 0, |t|);
    assert forall c | c in a || c in b :: 0 <= c < |t| && t[c] == ';' by {
      TagCutsFrom(t, 0, word);
      CutsNotBefore(t, 0, false);
    }
    hide *;
    if forall p | 0 <= p < |t| && t[p] == ';' :: Within(p, bodies) <==> Marks(t, 0, p) % 2 == 1 {
      forall x
        ensures x in a <==> x in b
      {
        if 0 <= x < |t| && t[x] == ';' {
          assert Within(x, bodies) <==> Marks(t, 0, x) % 2 == 1;
        }
      }
      SameMembers(a, b, 0, |t|);
    }
  }
}
