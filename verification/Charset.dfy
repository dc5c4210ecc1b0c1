/** What the lexer and the %q verb ask of the unicode and strconv packages. */
module Charset {
  /** The character classes of Go's unicode package, rune by rune. */
  datatype Unicode = Unicode(
    letter: char -> bool, digit: char -> bool, space: char -> bool, printable: char -> bool, upper: char -> char)
  {
    /** The facts of Unicode that the proofs use; everything else about the classes is left open. */
    ghost predicate Sane()
    {
      && (forall c :: letter(c) || digit(c) ==> !space(c))
      && (forall c :: IsPunctuation(c) ==> !letter(c) && !digit(c) && !space(c))
      && (forall c :: 'A' <= c <= 'Z' ==> letter(c) && upper(c) == c)
      && (forall c :: 'a' <= c <= 'z' ==> letter(c) && upper(c) == c - 32 as char)
      && (forall c :: IsEscapeLetter(c) ==> printable(c))
      && space(' ') && !space('_')
    }
  }

  predicate IsPunctuation(c: char)
  {
    c == '(' || c == ')' || c == ',' || c == '!' || c == '=' || c == '"' || c == '\''
  }

  /** The characters strconv.Quote writes after the backslash of an escaped unprintable rune. */
  predicate IsEscapeLetter(c: char)
  {
    '0' <= c <= '9' || 'a' <= c <= 'f' || c == 'n' || c == 'r' || c == 't' || c == 'u' || c == 'v' || c == 'x' ||
      c == 'U'
  }

  /** The classes of the ASCII range, as an example of what a charset is. */
  const ASCII := Unicode(
    c => 'a' <= c <= 'z' || 'A' <= c <= 'Z',
    c => '0' <= c <= '9',
    c => c == ' ' || '\t' <= c <= '\r',
    c => ' ' <= c <= '~',
    c => if 'a' <= c <= 'z' then c - 32 as char else c)

  type Charset = u: Unicode | u.Sane() ghost witness ASCII

  predicate IsWordStart(cs: Charset, c: char)
  {
    cs.letter(c) || c == '_'
  }

  predicate IsWordChar(cs: Charset, c: char)
  {
    cs.letter(c) || cs.digit(c) || c == '_' || c == '-' || c == '.'
  }

  /** strings.ToUpper. */
  function ToUpper(cs: Charset, word: string): string
  {
    seq(|word|, i requires 0 <= i < |word| => cs.upper(word[i]))
  }
}
