/** What normalizing makes of a text: its words, with single spaces between them. */
module Normalization {
  import opened AlterTable
  import opened BlockComments
  import opened JavaScriptText
  import opened LowerBoundDetector
  import opened StripAgreement
  import opened StripComments
  import opened StripLaws
  import opened Wrappers
  import S = LowerBoundScan

  ghost predicate AreBlanks(g: string) { forall c | c in g :: IsSpace(c) }

  ghost predicate IsOneWord(w: string) { w != "" && forall c | c in w :: !IsSpace(c) }

  /** The words with stretches of blanks before, between and behind them. */
  function Spread(words: seq<string>, gaps: seq<string>): string
    requires |gaps| == |words| + 1
  {
    if words == [] then gaps[0] else gaps[0] + (words[0] + Spread(words[1..], gaps[1..]))
  }

  function Spaced(words: seq<string>): string {
    if words == [] then "" else if |words| == 1 then words[0] else words[0] + (" " + Spaced(words[1..]))
  }

  /** Between two words there is at least one blank. */
  ghost predicate Fits(words: seq<string>, gaps: seq<string>) {
    && |gaps| == |words| + 1 && (forall w | w in words :: IsOneWord(w)) && (forall g | g in gaps :: AreBlanks(g))
    && forall k :: 0 < k < |words| ==> gaps[k] != ""
  }

  lemma FitsRest(words: seq<string>, gaps: seq<string>)
    requires Fits(words, gaps) && words != []
    ensures Fits(words[1..], gaps[1..]) && IsOneWord(words[0]) && AreBlanks(gaps[0]) && AreBlanks(gaps[1])
    ensures |words| > 1 ==> gaps[1] != ""
  {
    assert words[0] in words && gaps[0] in gaps && gaps[1] in gaps;
  }

  // ----- squeezing -----

  lemma {:induction false} BlanksSqueezed(g: string, r: string, k: nat)
    requires AreBlanks(g) && k <= |g| && (r != "" ==> !IsSpace(r[0]))
    ensures SkipSpace(g + r, k) == |g|
    decreases |g| - k
  {
    var t := g + r;
    if k < |g| {
      assert g[k] in g && t[k] == g[k];
      BlanksSqueezed(g, r, k + 1);
    } else if r != "" {
      assert t[k] == r[0];
    }
  }

  lemma GapSqueezed(g: string, r: string)
    requires AreBlanks(g) && (r != "" ==> !IsSpace(r[0]))
    ensures Squeezed(g + r) == (if g == "" then "" else " ") + Squeezed(r)
  {
    var t := g + r;
    if g == "" {
      assert t == r;
    } else {
      assert g[0] in g && t[0] == g[0];
      BlanksSqueezed(g, r, 1);
      assert t[|g|..] == r;
    }
  }

  lemma {:induction false} WordSqueezed(w: string, r: string)
    requires forall c | c in w :: !IsSpace(c)
    ensures Squeezed(w + r) == w + Squeezed(r)
    decreases |w|
  {
    if w == "" {
      assert w + r == r;
    } else {
      var t := w + r;
      assert t[0] == w[0] && w[0] in w && t[1..] == w[1..] + r;
      WordSqueezed(w[1..], r);
      assert w == [w[0]] + w[1..];
    }
  }

  function Margin(g: string): string { if g == "" then "" else " " }

  lemma {:induction false} SpreadSqueezed(words: seq<string>, gaps: seq<string>)
    requires Fits(words, gaps) && words != []
    ensures Squeezed(Spread(words, gaps)) == Margin(gaps[0]) + Spaced(words) + Margin(gaps[|words|])
    decreases |words|
  {
    FitsRest(words, gaps);
    var w, rest, after := words[0], Spread(words[1..], gaps[1..]), words[1..];
    assert w[0] in w && (w + rest)[0] == w[0];
    GapSqueezed(gaps[0], w + rest);
    WordSqueezed(w, rest);
    if |words| == 1 {
      assert rest == gaps[1] + "";
      GapSqueezed(gaps[1], "");
      assert Squeezed("") == "";
    } else {
      SpreadSqueezed(after, gaps[1..]);
    }
    Margins(Margin(gaps[0]), w, after, Margin(gaps[|words|]), words);
  }

  lemma Margins(g: string, w: string, after: seq<string>, h: string, words: seq<string>)
    requires words != [] && w == words[0] && after == words[1..]
    ensures |words| == 1 ==> g + (w + h) == g + Spaced(words) + h
    ensures |words| > 1 ==> g + (w + (" " + Spaced(after) + h)) == g + Spaced(words) + h
  {
    if |words| > 1 {
      var s := Spaced(after);
      assert Spaced(words) == w + (" " + s);
      hide Spaced;
      assert g + (w + (" " + s + h)) == g + (w + (" " + s)) + h;
    }
  }

  // ----- trimming -----

  lemma SpacedEnds(words: seq<string>)
    requires words != [] && forall w | w in words :: IsOneWord(w)
    ensures var s := Spaced(words); s != "" && !IsSpace(s[0]) && !IsSpace(s[|s| - 1])
  {
    hide IsSpace;
    assert words[0] in words && words[0][0] in words[0];
    if |words| == 1 {
      assert words[0][|words[0]| - 1] in words[0];
    } else {
      SpacedEnds(words[1..]);
    }
  }

  lemma TrimmedMargins(g: string, s: string, h: string)
    requires (g == "" || g == " ") && (h == "" || h == " ")
    requires s != "" && !IsSpace(s[0]) && !IsSpace(s[|s| - 1])
    ensures S.Trimmed(g + s + h) == s
  {
    var t := g + s + h;
    var a, b := |g|, |g| + |s|;
    assert t[a] == s[0] && t[b - 1] == s[|s| - 1] && t[a..b] == s;
    assert a > 0 ==> t[0] == ' ';
    assert b < |t| ==> t[b] == ' ';
    hide Squeezed;
    TrimmedAt(t, a, b);
  }

  lemma TrimmedAt(t: string, a: nat, b: nat)
    requires a < b <= |t| && !IsSpace(t[a]) && !IsSpace(t[b - 1])
    requires a == 0 || (a == 1 && t[0] == ' ')
    requires b == |t| || (b == |t| - 1 && t[b] == ' ')
    ensures S.Trimmed(t) == t[a..b]
  {
    assert IsSpace(' ');
    hide IsSpace;
    assert S.TrimStart(t, 0) == a;
    assert S.TrimEnd(t, a, |t|) == b;
  }

  /** The words, however they are spread, come out with single spaces between them. */
  lemma WordsNormalized(words: seq<string>, gaps: seq<string>)
    requires Fits(words, gaps)
    ensures Normalized(Spread(words, gaps)) == Spaced(words)
  {
    if words == [] {
      assert gaps[0] in gaps;
      assert gaps[0] + "" == gaps[0];
      GapSqueezed(gaps[0], "");
      assert Squeezed("") == "";
      assert S.Trimmed("") == "" == S.Trimmed(" ") by {
        assert S.TrimStart(" ", 0) == S.TrimStart(" ", 1) == 1;
      }
    } else {
      SpreadSqueezed(words, gaps);
      SpacedEnds(words);
      TrimmedMargins(Margin(gaps[0]), Spaced(words), Margin(gaps[|words|]));
    }
  }

  lemma NewHead(xs: seq<string>, x: string)
    requires xs != []
    ensures var ys := [x] + xs[1..];
            ys[0] == x && ys[1..] == xs[1..] && |ys| == |xs| && forall y | y in ys :: y == x || y in xs
  {
  }

  /** Every text is such a spread of words. */
  lemma {:induction false} WordsExist(t: string) returns (words: seq<string>, gaps: seq<string>)
    ensures Fits(words, gaps) && Spread(words, gaps) == t
    decreases |t|
  {
    if t == "" {
      words, gaps := [], [""];
    } else {
      var c := [t[0]];
      words, gaps := WordsExist(t[1..]);
      assert t == c + t[1..];
      assert gaps[0] in gaps && (words != [] ==> words[0] in words);
      if IsSpace(t[0]) {
        var gap := c + gaps[0];
        assert AreBlanks(gap);
        NewHead(gaps, gap);
        gaps := [gap] + gaps[1..];
      } else if gaps[0] == "" && words != [] {
        var word := c + words[0];
        assert IsOneWord(word);
        NewHead(words, word);
        words := [word] + words[1..];
      } else {
        assert IsOneWord(c) && AreBlanks("");
        assert ([c] + words)[1..] == words && ([""] + gaps)[1..] == gaps;
        words, gaps := [c] + words, [""] + gaps;
      }
    }
  }

  // ----- an SQL file -----

  /** Of an SQL text both detectors judge its words outside comments, with single spaces between them; the
      new one does so unless it meets a comment that an earlier one hides from it. */
  lemma TextJudged(items: seq<Item>, words: seq<string>, gaps: seq<string>, bs: bool)
    requires WellWritten(items, bs) && Fits(words, gaps) && CleanedAll(items) == Spread(words, gaps)
    ensures var t := WrittenAll(items);
            && Normalized(Stripped(t, CountedEnds(t), bs)) == Spaced(words)
            && (!MeetsSkipped(t, bs, 0, |t|, 0) ==> Normalized(Stripped(t, ReadEnds(t), bs)) == Spaced(words))
  {
    hide *;
    AllCleaned(items, bs);
    OnePassCleans(items, bs);
    WordsNormalized(words, gaps);
  }
}
