/** The names a script engine accepts (ECMA-262, section 7.6). */
module Identifiers {

  /** Which characters may start an identifier and which may follow. */
  datatype Lexicon = Lexicon(start: char -> bool, part: char -> bool)

  /** Keywords, future reserved words and literals of section 7.6.1. */
  const RESERVED: set<string> := {
    "break", "case", "catch", "class", "const", "continue", "debugger", "default", "delete", "do", "else", "enum",
    "export", "extends", "false", "finally", "for", "function", "if", "import", "in", "instanceof", "new", "null",
    "return", "super", "switch", "this", "throw", "true", "try", "typeof", "var", "void", "while", "with"
  }

  predicate IsLetter(c: char) {
    'a' <= c <= 'z' || 'A' <= c <= 'Z' || c == '_' || c == '$'
  }

  predicate IsDigit(c: char) {
    '0' <= c <= '9'
  }

  /** Section 7.6 and its ASCII letters one by one. */
  lemma LettersAre(c: char)
    ensures IsLetter(c) <==> c in {
      '$', '_',
      'a', 'b', 'c', 'd', 'e', 'f', 'g', 'h', 'i', 'j', 'k', 'l', 'm',
      'n', 'o', 'p', 'q', 'r', 's', 't', 'u', 'v', 'w', 'x', 'y', 'z',
      'A', 'B', 'C', 'D', 'E', 'F', 'G', 'H', 'I', 'J', 'K', 'L', 'M',
      'N', 'O', 'P', 'Q', 'R', 'S', 'T', 'U', 'V', 'W', 'X', 'Y', 'Z'
    }
    ensures IsDigit(c) <==> c in {'0', '1', '2', '3', '4', '5', '6', '7', '8', '9'}
  {
  }

  /** What the standard asks of the first 128 characters: letters start, digits only follow, the rest do neither. */
  ghost predicate Standard(lexicon: Lexicon) {
    && (forall c: char | IsLetter(c) :: lexicon.start(c))
    && (forall c: char | IsLetter(c) || IsDigit(c) :: lexicon.part(c))
    && (forall c: char | c < '\U{0080}' && !IsLetter(c) :: !lexicon.start(c))
    && (forall c: char | c < '\U{0080}' && !IsLetter(c) && !IsDigit(c) :: !lexicon.part(c))
  }

  predicate Identifier(lexicon: Lexicon, s: string) {
    s != [] && lexicon.start(s[0]) && (forall c | c in s[1..] :: lexicon.part(c)) && s !in RESERVED
  }

  /** A word of ASCII letters and digits whose seventh character is a digit is no reserved word. */
  lemma NumberedIsIdentifier(lexicon: Lexicon, s: string)
    requires Standard(lexicon) && |s| > 6 && IsLetter(s[0]) && IsDigit(s[6])
    requires forall c | c in s :: IsLetter(c) || IsDigit(c)
    ensures Identifier(lexicon, s)
  {
    forall w | w in RESERVED ensures w != s {
      assert |w| > 6 ==> !IsDigit(w[6]);
    }
  }
}
