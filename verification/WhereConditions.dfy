/** Which part of a DELETE statement its two readers judge: what stands between the words WHERE and RETURNING. */
module WhereConditions {
  import opened Characters
  import opened HollowCondition
  import opened MaskStatement
  import opened Wrappers
  import S = LowerBoundScan

  // ----- words -----

  /** The word stands at k, in small or big letters, and is not part of a longer one. */
  ghost predicate StandsAt(t: string, k: nat, small: string, big: string)
    requires |small| == |big|
  {
    var e := k + |small|;
    && e <= |t| && Spells(t[k..e], small, big)
    && (k > 0 ==> !OfWord(t[k - 1])) && (e < |t| ==> !OfWord(t[e]))
  }

  /** It also stands outside parentheses. */
  ghost predicate StandsOutside(t: string, k: nat, small: string, big: string)
    requires |small| == |big|
  {
    StandsAt(t, k, small, big) && Depth(t, k) == 0
  }

  lemma WordChar(c: char)
    ensures OfWord(c) <==> IsWord(c)
  {
    AlphabetAt(c);
  }

  lemma LetterAt(c: char, s: char, b: char)
    requires 'a' <= s <= 'z' && s as int == b as int + 32
    ensures Lower(c) == s <==> c == s || c == b
  {
  }

  lemma SameIsSpelled(t: string, k: nat, e: nat, small: string, big: string)
    requires SameLetters(small, big) && k <= e <= |t|
    ensures SameWord(t, k, e, small) <==> e == k + |small| && Spells(t[k..e], small, big)
  {
    if e == k + |small| {
      var w := t[k..e];
      forall j | 0 <= j < |small|
        ensures t[k + j] == w[j] && (Lower(t[k + j]) == small[j] <==> w[j] == small[j] || w[j] == big[j])
      {
        LetterAt(w[j], small[j], big[j]);
      }
    }
  }

  lemma SpelledIsWord(w: string, small: string, big: string)
    requires SameLetters(small, big) && Spells(w, small, big)
    ensures forall j :: 0 <= j < |w| ==> IsLetter(w[j]) && IsWord(w[j])
  {
  }

  /** The reader takes the word for an outer one exactly where it stands so. */
  lemma OuterIsOutside(t: string, k: nat, small: string, big: string)
    requires SameLetters(small, big) && small != ""
    ensures OuterWordAt(t, k, small) <==> StandsOutside(t, k, small, big)
  {
    var n := k + |small|;
    hide OfWord, IsWord, IsLetter, Spells, SameWord;
    if k < |t| && (OuterWordAt(t, k, small) || StandsOutside(t, k, small, big)) {
      var e := WordEnd(t, k + 1, |t|);
      SameIsSpelled(t, k, e, small, big);
      if k > 0 {
        WordChar(t[k - 1]);
      }
      if n < |t| {
        WordChar(t[n]);
      }
      if StandsOutside(t, k, small, big) {
        SpelledIsWord(t[k..n], small, big);
        assert forall j :: k <= j < n ==> t[j] == t[k..n][j - k];
        assert e == n;
      }
    }
  }

  lemma WholeIsThere(t: string, k: nat, small: string, big: string)
    requires SameLetters(small, big)
    ensures S.WholeWordAt(t, k, small) <==> StandsAt(t, k, small, big)
  {
    var n := k + |small|;
    hide OfWord, IsWord, Spells, SameWord;
    if n <= |t| {
      SameIsSpelled(t, k, n, small, big);
      if k > 0 {
        WordChar(t[k - 1]);
      }
      if n < |t| {
        WordChar(t[n]);
      }
    }
  }

  // ----- the new reader -----

  /** The word does not stand outside parentheses from i up to j. */
  ghost predicate NoneOutside(t: string, i: nat, j: nat, small: string, big: string)
    requires |small| == |big|
  {
    forall k :: i <= k < j ==> !StandsOutside(t, k, small, big)
  }

  lemma FirstFound(t: string, i: nat, small: string, big: string, p: nat)
    requires SameLetters(small, big) && small != "" && i <= p <= |t| && Depth(t, i) == 0
    requires NoneOutside(t, i, p, small, big) && StandsOutside(t, p, small, big)
    ensures FindWord(t, i, 0, small) == Some((p, p + |small|))
  {
    hide *;
    OuterEnds(t, p, small, big);
    OuterIsOutside(t, p, small, big);
    FirstWord(t, i, 0, small);
    var r := FindWord(t, i, 0, small);
    if r.Some? {
      NotEarlier(t, i, small, big, p, r.value.0);
      NotLater(t, i, small, p, r.value.0);
    } else {
      NotLater(t, i, small, p, |t|);
    }
  }

  lemma NoneFound(t: string, i: nat, small: string, big: string)
    requires SameLetters(small, big) && small != "" && i <= |t| && Depth(t, i) == 0
    requires NoneOutside(t, i, |t|, small, big)
    ensures FindWord(t, i, 0, small).None?
  {
    hide *;
    FirstWord(t, i, 0, small);
    var r := FindWord(t, i, 0, small);
    if r.Some? {
      NotEarlier(t, i, small, big, |t|, r.value.0);
    }
  }

  lemma NotEarlier(t: string, i: nat, small: string, big: string, p: nat, end: nat)
    requires SameLetters(small, big) && small != "" && NoneOutside(t, i, p, small, big)
    requires i <= end && OuterWordAt(t, end, small)
    ensures p <= end
  {
    OuterIsOutside(t, end, small, big);
    hide OuterWordAt, StandsOutside;
  }

  lemma NotLater(t: string, i: nat, small: string, p: nat, end: nat)
    requires i <= p && OuterWordAt(t, p, small) && NoneBetween(t, i, end, small)
    ensures end <= p
  {
    hide OuterWordAt;
  }

  lemma OuterEnds(t: string, p: nat, small: string, big: string)
    requires SameLetters(small, big) && small != "" && StandsOutside(t, p, small, big)
    ensures p < p + |small| <= |t| && WordEnd(t, p + 1, |t|) == p + |small|
  {
    OuterIsOutside(t, p, small, big);
  }

  lemma DepthBehind(t: string, p: nat, small: string, big: string)
    requires SameLetters(small, big) && small != "" && StandsOutside(t, p, small, big)
    ensures Depth(t, p + |small|) == 0
  {
    var n := p + |small|;
    SpelledIsWord(t[p..n], small, big);
    assert forall j :: p <= j < n ==> t[j] == t[p..n][j - p];
    DepthInWord(t, p, n);
  }

  /** Without a WHERE outside parentheses there is no condition. */
  lemma NoWhere(body: string, empty: string -> bool)
    requires NoneOutside(body, 0, |body|, "where", "WHERE")
    ensures !HasWhere(body, empty)
  {
    NoneFound(body, 0, "where", "WHERE");
  }

  /** The condition goes from the first WHERE outside parentheses up to the first RETURNING behind it, or to
      the end; the statement has a WHERE that says something exactly when the condition is not hollow. */
  lemma WhereJudged(body: string, p: nat, q: nat, empty: string -> bool)
    requires StandsOutside(body, p, "where", "WHERE") && NoneOutside(body, 0, p, "where", "WHERE")
    requires p + 5 <= q <= |body| && NoneOutside(body, p + 5, q, "returning", "RETURNING")
    requires q < |body| ==> StandsOutside(body, q, "returning", "RETURNING")
    ensures HasWhere(body, empty) <==> !HollowText(body[p + 5..q], empty)
  {
    assert SameLetters("where", "WHERE") && SameLetters("returning", "RETURNING");
    hide StandsOutside, NoneOutside, FindWord, HollowText, Depth;
    assert Depth(body, 0) == 0 by { DepthAtStart(body); }
    FirstFound(body, 0, "where", "WHERE", p);
    DepthBehind(body, p, "where", "WHERE");
    if q < |body| {
      FirstFound(body, p + 5, "returning", "RETURNING", q);
    } else {
      NoneFound(body, p + 5, "returning", "RETURNING");
    }
  }

  lemma DepthAtStart(t: string)
    ensures Depth(t, 0) == 0
  {
  }

  // ----- the lower bound reader -----

  ghost predicate NoneStands(t: string, i: nat, j: nat, small: string, big: string)
    requires |small| == |big|
  {
    forall k :: i <= k < j ==> !StandsAt(t, k, small, big)
  }

  lemma {:induction false} WholeFound(t: string, i: nat, small: string, big: string, p: nat)
    requires SameLetters(small, big) && small != "" && i <= p <= |t| && NoneStands(t, i, p, small, big)
    requires p < |t| ==> StandsAt(t, p, small, big)
    ensures S.FindWhole(t, i, small) == if p < |t| then Some(p) else None
    decreases p - i
  {
    hide StandsAt, S.WholeWordAt;
    if i < |t| {
      WholeIsThere(t, i, small, big);
      if i < p {
        WholeFound(t, i + 1, small, big, p);
      }
    }
  }

  /** Behind a WHERE the words are those of the whole text. */
  lemma StandsBehind(t: string, w: nat, k: nat, small: string, big: string)
    requires SameLetters(small, big) && small != "" && w <= k && w <= |t| && (w < |t| ==> !OfWord(t[w]))
    ensures StandsAt(t[w..], k - w, small, big) <==> StandsAt(t, k, small, big)
  {
    var u, n := t[w..], |small|;
    if k + n <= |t| {
      assert u[k - w..k - w + n] == t[k..k + n];
      if Spells(t[k..k + n], small, big) {
        SpelledIsWord(t[k..k + n], small, big);
        assert t[k] == t[k..k + n][0];
        WordChar(t[k]);
      }
    }
  }

  /** The condition goes from the first WHERE outside the groups up to the first RETURNING behind it, or to
      the end. */
  lemma WhereRead(t: string, token: Option<string>, from: nat, p: nat, q: nat, constant: string -> bool)
    requires from <= |t|
    requires var o := S.ScanFrom(t, token, from).outside;
             && StandsAt(o, p, "where", "WHERE") && NoneStands(o, 0, p, "where", "WHERE")
             && p + 5 <= q <= |o| && NoneStands(o, p + 5, q, "returning", "RETURNING")
             && (q < |o| ==> StandsAt(o, q, "returning", "RETURNING"))
    ensures var o := S.ScanFrom(t, token, from);
            && S.Refers(o.outside[p + 5..q], o.groups, |t|)
            && (S.HasWhere(t, from, token, constant) <==> !S.IsConstant(o.outside[p + 5..q], o.groups, |t|, constant))
  {
    var o := S.ScanFrom(t, token, from);
    hide S.ScanFrom, S.IsConstant, S.Refers, S.GroupRef;
    S.ScannedRefers(t, token, from, p + 5);
    ConditionCut(o.outside, p, q);
    WholeFound(o.outside, 0, "where", "WHERE", p);
  }

  lemma ConditionCut(o: string, p: nat, q: nat)
    requires StandsAt(o, p, "where", "WHERE")
    requires p + 5 <= q <= |o| && NoneStands(o, p + 5, q, "returning", "RETURNING")
    requires q < |o| ==> StandsAt(o, q, "returning", "RETURNING")
    ensures S.ConditionOf(o, p + 5) == o[p + 5..q] && p < |o|
  {
    var w := p + 5;
    var u := o[w..];
    assert SameLetters("returning", "RETURNING");
    assert w < |o| ==> !OfWord(o[w]);
    hide StandsAt, S.FindWhole;
    forall k | w <= k <= q
      ensures StandsAt(u, k - w, "returning", "RETURNING") <==> StandsAt(o, k, "returning", "RETURNING")
    {
      StandsBehind(o, w, k, "returning", "RETURNING");
    }
    assert forall k :: 0 <= k < q - w ==> !StandsAt(u, k, "returning", "RETURNING") by {
      forall k | 0 <= k < q - w
        ensures !StandsAt(u, k, "returning", "RETURNING")
      {
        assert !StandsAt(o, k + w, "returning", "RETURNING");
        StandsBehind(o, w, k + w, "returning", "RETURNING");
      }
    }
    WholeFound(u, 0, "returning", "RETURNING", q - w);
  }

  /** Without a WHERE outside the groups there is no condition. */
  lemma NoWhereRead(t: string, token: Option<string>, from: nat, constant: string -> bool)
    requires from <= |t|
    requires var o := S.ScanFrom(t, token, from).outside; NoneStands(o, 0, |o|, "where", "WHERE")
    ensures !S.HasWhere(t, from, token, constant)
  {
    var o := S.ScanFrom(t, token, from).outside;
    hide S.ScanFrom;
    WholeFound(o, 0, "where", "WHERE", |o|);
  }
}
