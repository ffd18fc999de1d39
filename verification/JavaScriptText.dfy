/** Blanks and line breaks as JavaScript's regular expressions know them. */
module JavaScriptText {
  predicate IsSpace(c: char) {
    || c == ' ' || '\U{0009}' <= c <= '\U{000D}' || c == '\U{00A0}' || c == '\U{1680}' || '\U{2000}' <= c <= '\U{200A}'
    || c == '\U{2028}' || c == '\U{2029}' || c == '\U{202F}' || c == '\U{205F}' || c == '\U{3000}' || c == '\U{FEFF}'
  }

  /** The line break that ends the line from i on, or the length of the text. */
  function LineStop(t: string, i: nat): (r: nat)
    requires i <= |t|
    ensures i <= r <= |t|
    decreases |t| - i
  {
    if i < |t| && t[i] != '\n' then LineStop(t, i + 1) else i
  }

  lemma {:induction false} LineStopFirst(t: string, i: nat)
    requires i <= |t|
    ensures var e := LineStop(t, i); (e < |t| ==> t[e] == '\n') && forall k :: i <= k < e ==> t[k] != '\n'
    decreases |t| - i
  {
    if i < |t| && t[i] != '\n' {
      LineStopFirst(t, i + 1);
    }
  }
}
