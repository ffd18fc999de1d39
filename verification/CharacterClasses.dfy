/** The character classes of the scanners are the alphabets they are meant to be. */
module CharacterClasses {
  import opened Characters
  import AlterTable
  import ChurnStrip
  import HollowCondition
  import JavaScriptText
  import MaskStatement
  import Numbers
  import PythonText
  import SourceMask
  import SqlLexis

  /** The classes of the regular expressions for SQL identifiers, tags and words. */
  lemma SqlClasses(c: char)
    ensures SqlLexis.AsciiLetter(c) <==> c in SMALL + BIG
    ensures SqlLexis.TagStart(c) <==> c in SMALL + BIG + "_" || c > '\U{007F}'
    ensures SqlLexis.TagChar(c) <==> c in SMALL + BIG + DIGITS + "_" || c > '\U{007F}'
    ensures SqlLexis.IdentChar(c) <==> c in SMALL + BIG + DIGITS + "_$" || c > '\U{007F}'
    ensures SqlLexis.IsQuote(c) <==> c in "'\""
    ensures MaskStatement.IsSpecial(c) <==> c in ";()'\"$"
    ensures MaskStatement.PrefixLetter(c) <==> c in "EeBbXxNn"
    ensures HollowCondition.IsLetter(c) <==> c in SMALL + BIG
    ensures HollowCondition.IsWord(c) <==> AlterTable.IsWordChar(c)
    ensures AlterTable.IsWordChar(c) <==> c in SMALL + BIG + DIGITS + "_"
    ensures HollowCondition.IsBlank(c) <==> c in BLANKS
    ensures ChurnStrip.IsTagStart(c) <==> c in SMALL + BIG + "_"
    ensures ChurnStrip.IsTagChar(c) <==> c in SMALL + BIG + DIGITS + "_"
    ensures Numbers.IsDigit(c) <==> c in DIGITS
    ensures SourceMask.IsNameChar(c) <==> c in SMALL + BIG + DIGITS + "_$"
    ensures SourceMask.IsLineBreak(c) <==> c in "\n\r\U{2028}\U{2029}"
  {
    AlphabetAt(c);
    assert c in SMALL + BIG <==> c in SMALL || c in BIG;
  }

  /** The blanks of the two languages. */
  lemma BlankClasses(c: char)
    ensures JavaScriptText.IsSpace(c) <==> c in BLANKS + WIDE_BLANKS + "\U{FEFF}"
    ensures PythonText.IsPythonSpace(c) <==>
            c in BLANKS + WIDE_BLANKS + "\U{0085}\U{001C}\U{001D}\U{001E}\U{001F}"
  {
    if '\U{0009}' <= c <= '\U{000D}' {
      assert BLANKS[c as int - 8] == c;
    }
    if '\U{2000}' <= c <= '\U{200A}' {
      assert WIDE_BLANKS[c as int - 0x2000 + 2] == c;
    }
  }
}
