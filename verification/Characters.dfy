/** Alphabets, written out. */
module Characters {
  const SMALL := "abcdefghijklm" + "nopqrstuvwxyz"
  const BIG := "ABCDEFGHIJKLM" + "NOPQRSTUVWXYZ"
  const DIGITS := "0123456789"

  /** Blanks of ASCII, and the others that JavaScript and Python share. */
  const BLANKS := " \t\n\U{000B}\U{000C}\r"
  const WIDE_BLANKS := "\U{00A0}\U{1680}\U{2000}\U{2001}\U{2002}\U{2003}\U{2004}\U{2005}\U{2006}\U{2007}"
                       + "\U{2008}\U{2009}\U{200A}\U{2028}\U{2029}\U{202F}\U{205F}\U{3000}"

  /** Letters, digits and the underscore make words. */
  predicate OfWord(c: char) { c in SMALL || c in BIG || c in DIGITS || c == '_' }

  /** The word in small and big letters, as they come. */
  predicate Spells(s: string, small: string, big: string)
    requires |small| == |big|
  {
    |s| == |small| && forall k :: 0 <= k < |s| ==> s[k] == small[k] || s[k] == big[k]
  }

  /** The same word in small and in big letters. */
  predicate SameLetters(small: string, big: string) {
    && |small| == |big|
    && forall k :: 0 <= k < |small| ==> 'a' <= small[k] <= 'z' && small[k] as int == big[k] as int + 32
  }

  lemma AlphabetAt(c: char)
    ensures c in SMALL <==> 'a' <= c <= 'z'
    ensures c in BIG <==> 'A' <= c <= 'Z'
    ensures c in DIGITS <==> '0' <= c <= '9'
  {
    hide *;
    SmallAt(c);
    BigAt(c);
    DigitAt(c);
  }

  lemma SmallAt(c: char)
    ensures c in SMALL <==> 'a' <= c <= 'z'
  {
    if 'a' <= c <= 'z' {
      assert SMALL[c as int - 'a' as int] == c;
    }
  }

  lemma BigAt(c: char)
    ensures c in BIG <==> 'A' <= c <= 'Z'
  {
    if 'A' <= c <= 'Z' {
      assert BIG[c as int - 'A' as int] == c;
    }
  }

  lemma DigitAt(c: char)
    ensures c in DIGITS <==> '0' <= c <= '9'
  {
    if '0' <= c <= '9' {
      assert DIGITS[c as int - '0' as int] == c;
    }
  }
}
