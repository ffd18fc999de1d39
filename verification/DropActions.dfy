/** The actions of ALTER TABLE that drop a column with the word COLUMN left out, as they are written. */
module DropActions {
  import opened AlterTable
  import opened Characters
  import opened JavaScriptText
  import opened Wrappers

  ghost predicate AreBlanks(g: string) { forall c | c in g :: IsSpace(c) }

  /** The rest begins with the whole word CONSTRAINT. */
  ghost predicate BeginsConstraint(rest: string) {
    exists word, more :: rest == word + more && Spells(word, "constraint", "CONSTRAINT")
                         && (more != "" ==> !OfWord(more[0]))
  }

  /** Blanks, the word DROP, blanks, and something that is not the word CONSTRAINT. */
  ghost predicate IsDrop(a: string, before: string, word: string, gap: string, rest: string) {
    && a == before + word + gap + rest && AreBlanks(before) && Spells(word, "drop", "DROP")
    && gap != "" && AreBlanks(gap) && rest != "" && !IsSpace(rest[0]) && !BeginsConstraint(rest)
  }

  ghost predicate DropsSomething(a: string) {
    exists before, word, gap, rest :: IsDrop(a, before, word, gap, rest)
  }

  lemma {:induction false} SkipsBlanks(a: string, k: nat, e: nat)
    requires k <= e <= |a| && (forall i :: k <= i < e ==> IsSpace(a[i])) && (e < |a| ==> !IsSpace(a[e]))
    ensures SkipSpace(a, k) == e
    decreases e - k
  {
    if k < e {
      SkipsBlanks(a, k + 1, e);
    }
  }

  lemma {:induction false} SkippedBlanks(a: string, k: nat)
    requires k <= |a|
    ensures var e := SkipSpace(a, k);
            && (forall i :: k <= i < e ==> IsSpace(a[i])) && (e < |a| ==> !IsSpace(a[e]))
    decreases |a| - k
  {
    if k < |a| && IsSpace(a[k]) {
      SkippedBlanks(a, k + 1);
    }
  }

  lemma WordIs(a: string, k: nat, small: string, big: string)
    requires SameLetters(small, big)
    ensures WordAt(a, k, big) <==> k + |small| <= |a| && Spells(a[k..k + |small|], small, big)
  {
    if k + |small| <= |a| {
      var w := a[k..k + |small|];
      assert forall j :: 0 <= j < |small| ==> a[k + j] == w[j];
      assert forall j :: 0 <= j < |small| ==> (Upper(a[k + j]) == big[j] <==> w[j] == small[j] || w[j] == big[j]);
    }
  }

  lemma ConstraintAt(a: string, k: nat)
    requires k <= |a|
    ensures WordAt(a, k, "CONSTRAINT") && (k + 10 == |a| || !IsWordChar(a[k + 10])) <==> BeginsConstraint(a[k..])
  {
    var rest := a[k..];
    WordIs(a, k, "constraint", "CONSTRAINT");
    hide WordAt, Upper;
    if k + 10 <= |a| {
      var word, more := rest[..10], rest[10..];
      assert a[k..k + 10] == word && rest == word + more;
      assert more != "" ==> more[0] == a[k + 10];
      if k + 10 < |a| {
        AlphabetAt(a[k + 10]);
      }
    }
    if word, more :| rest == word + more && Spells(word, "constraint", "CONSTRAINT")
                     && (more != "" ==> !OfWord(more[0])) {
      assert |word| == 10 && rest[..10] == word && rest[10..] == more;
    }
  }

  /** An action drops a column exactly when it is written so. */
  lemma DropsWritten(a: string)
    ensures DropsColumn(a) <==> DropsSomething(a)
  {
    if DropsColumn(a) {
      DropTaken(a);
    }
    if before, word, gap, rest :| IsDrop(a, before, word, gap, rest) {
      DropRead(a, before, word, gap, rest);
    }
  }

  lemma BlankSlice(a: string, i: nat, j: nat)
    requires i <= j <= |a| && forall k :: i <= k < j ==> IsSpace(a[k])
    ensures AreBlanks(a[i..j])
  {
    hide IsSpace;
  }

  lemma FourParts(a: string, i: nat, j: nat, k: nat)
    requires i <= j <= k <= |a|
    ensures a == a[..i] + a[i..j] + a[j..k] + a[k..]
  {
  }

  lemma DropTaken(a: string)
    requires DropsColumn(a)
    ensures DropsSomething(a)
  {
    var k := SkipSpace(a, 0);
    var m := SkipSpace(a, k + 4);
    hide *;
    DropRests(a, k, m);
    SkippedBlanks(a, 0);
    SkippedBlanks(a, k + 4);
    WordIs(a, k, "drop", "DROP");
    ConstraintAt(a, m);
    BlankSlice(a, 0, k);
    BlankSlice(a, k + 4, m);
    FourParts(a, k, k + 4, m);
    assert a[0..k] == a[..k] && a[m..][0] == a[m];
    DropFound(a, a[..k], a[k..k + 4], a[k + 4..m], a[m..]);
  }

  lemma DropRests(a: string, k: nat, m: nat)
    requires DropsColumn(a) && k == SkipSpace(a, 0) && (k + 4 <= |a| ==> m == SkipSpace(a, k + 4))
    ensures WordAt(a, k, "DROP") && k + 4 < m < |a| && SameLetters("drop", "DROP")
    ensures !(WordAt(a, m, "CONSTRAINT") && (m + 10 == |a| || !IsWordChar(a[m + 10])))
  {
    hide SkipSpace;
  }

  lemma DropFound(a: string, before: string, word: string, gap: string, rest: string)
    requires IsDrop(a, before, word, gap, rest)
    ensures DropsSomething(a)
  {
    hide IsDrop;
  }

  lemma DropRead(a: string, before: string, word: string, gap: string, rest: string)
    requires IsDrop(a, before, word, gap, rest)
    ensures DropsColumn(a)
  {
    var k := |before|;
    var m := k + 4 + |gap|;
    hide DropsColumn, BeginsConstraint, IsSpace;
    DropParts(a, before, word, gap, rest);
    hide *;
    SpellsPair();
    WordIs(a, k, "drop", "DROP");
    ConstraintAt(a, m);
    SkipsBlanks(a, 0, k);
    SkipsBlanks(a, k + 4, m);
    DropPutTogether(a, k, m);
  }

  lemma SpellsPair()
    ensures SameLetters("drop", "DROP")
  {
  }

  lemma DropPutTogether(a: string, k: nat, m: nat)
    requires k == SkipSpace(a, 0) && WordAt(a, k, "DROP") && m == SkipSpace(a, k + 4) && k + 4 < m < |a|
    requires !(WordAt(a, m, "CONSTRAINT") && (m + 10 == |a| || !IsWordChar(a[m + 10])))
    ensures DropsColumn(a)
  {
    hide SkipSpace, WordAt, IsWordChar;
  }

  lemma DropParts(a: string, before: string, word: string, gap: string, rest: string)
    requires IsDrop(a, before, word, gap, rest)
    ensures var k := |before|;
            var m := k + 4 + |gap|;
            && k + 4 < m < |a| && a[k..k + 4] == word && Spells(word, "drop", "DROP")
            && a[m..] == rest && !BeginsConstraint(a[m..])
            && (forall i :: 0 <= i < k ==> IsSpace(a[i])) && !IsSpace(a[k])
            && (forall i :: k + 4 <= i < m ==> IsSpace(a[i])) && !IsSpace(a[m])
  {
    var k := |before|;
    var m := k + 4 + |gap|;
    assert a[k] == word[0] && !IsSpace(word[0]);
    hide IsSpace, BeginsConstraint;
    assert a[k..k + 4] == word && a[m..] == rest && a[m] == rest[0];
    assert forall i :: 0 <= i < k ==> a[i] == before[i];
    assert forall i :: k + 4 <= i < m ==> a[i] == gap[i - k - 4];
  }

  /** Some action is written so. */
  ghost predicate SomeDrop(actions: seq<string>) { exists a | a in actions :: DropsSomething(a) }

  lemma SomeDropWritten(actions: seq<string>)
    ensures AnyActionDrops(actions) <==> SomeDrop(actions)
  {
    forall a | a in actions
      ensures DropsColumn(a) <==> DropsSomething(a)
    {
      DropsWritten(a);
    }
    hide DropsColumn, DropsSomething;
  }
}
