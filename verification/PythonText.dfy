/** The part of Python's string methods the scripts rely on. */
module PythonText {
  predicate IsPythonSpace(c: char) {
    || c == ' ' || '\U{0009}' <= c <= '\U{000D}' || '\U{001C}' <= c <= '\U{001F}' || c == '\U{0085}' || c == '\U{00A0}'
    || c == '\U{1680}' || '\U{2000}' <= c <= '\U{200A}' || c == '\U{2028}' || c == '\U{2029}' || c == '\U{202F}'
    || c == '\U{205F}' || c == '\U{3000}'
  }

  function Stripped(s: string): string {
    if s == [] then s
    else if IsPythonSpace(s[0]) then Stripped(s[1..])
    else if IsPythonSpace(s[|s| - 1]) then Stripped(s[..|s| - 1])
    else s
  }

  predicate AreBlanks(s: string) { forall c | c in s :: IsPythonSpace(c) }

  /** No blanks at the ends. */
  predicate IsCore(x: string) { x != "" ==> !IsPythonSpace(x[0]) && !IsPythonSpace(x[|x| - 1]) }

  lemma {:induction false} StrippedIs(a: string, x: string, b: string)
    requires AreBlanks(a) && AreBlanks(b) && IsCore(x)
    ensures Stripped(a + x + b) == x
    decreases |a| + |b|
  {
    var s := a + x + b;
    if a != "" {
      assert a[0] in a && s[1..] == a[1..] + x + b;
      StrippedIs(a[1..], x, b);
    } else if b != "" {
      var front := b[..|b| - 1];
      assert b[|b| - 1] in b && s[..|s| - 1] == a + x + front;
      StrippedIs(a, x, front);
      if IsPythonSpace(s[0]) {
        BlankFirst(s, x, b);
      }
    } else {
      assert s == x;
    }
  }

  lemma BlankFirst(s: string, x: string, b: string)
    requires s == "" + x + b && AreBlanks(b) && b != "" && IsCore(x) && IsPythonSpace(s[0])
    ensures Stripped(s) == x
  {
    assert x == "" && s == b;
    AllStripped(b);
  }

  lemma {:induction false} AllStripped(b: string)
    requires AreBlanks(b)
    ensures Stripped(b) == ""
  {
    if b != "" {
      assert b[0] in b && forall c | c in b[1..] :: c in b;
      AllStripped(b[1..]);
    }
  }
}
