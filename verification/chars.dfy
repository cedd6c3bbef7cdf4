/** Character classes used by the text statistics of the counter page.

    The page's regular expressions use three ASCII classes (`[a-zA-Z]`,
    `[0-9]` and `[^a-zA-Z0-9\s]`) plus ECMAScript's `\s`, which is also the
    set of code points `String.prototype.trim` removes: the WhiteSpace and
    LineTerminator productions of the ECMAScript grammar. Characters are
    Unicode scalar values here, compared by code point. */
module Chars {

  /** ECMAScript whitespace: TAB, LF, VT, FF, CR, SPACE, NBSP, OGHAM SPACE MARK,
      EN QUAD .. HAIR SPACE, LINE SEPARATOR, PARAGRAPH SEPARATOR, NARROW NBSP,
      MEDIUM MATHEMATICAL SPACE, IDEOGRAPHIC SPACE and the byte order mark. */
  predicate IsWhitespace(c: char) {
    var k := c as int;
    || (0x09 <= k <= 0x0D)
    || k == 0x20
    || k == 0xA0
    || k == 0x1680
    || (0x2000 <= k <= 0x200A)
    || k == 0x2028
    || k == 0x2029
    || k == 0x202F
    || k == 0x205F
    || k == 0x3000
    || k == 0xFEFF
  }

  /** `[a-zA-Z]` */
  predicate IsLetter(c: char) {
    ('a' <= c <= 'z') || ('A' <= c <= 'Z')
  }

  /** `[0-9]` */
  predicate IsDigit(c: char) {
    '0' <= c <= '9'
  }

  /** `[^a-zA-Z0-9\s]`: neither an ASCII letter, nor an ASCII digit, nor whitespace. */
  predicate IsSpecial(c: char) {
    !IsLetter(c) && !IsDigit(c) && !IsWhitespace(c)
  }

  /** The bucket a character falls into; every character falls into exactly one. */
  datatype CharClass = Letter | Digit | Special | Space

  /** The three counted classes and whitespace partition the characters: the
      class returned is the only one whose predicate holds. */
  function Classify(c: char): (k: CharClass)
    ensures (k == Letter) == IsLetter(c)
    ensures (k == Digit) == IsDigit(c)
    ensures (k == Special) == IsSpecial(c)
    ensures (k == Space) == IsWhitespace(c)
  {
    if IsLetter(c) then Letter
    else if IsDigit(c) then Digit
    else if IsWhitespace(c) then Space
    else Special
  }
}
