/** Character codes and the character classes the expression lexer is built on.
    Every code is an immutable constant; every class is a single comparison over them. */
module Chars {

  // Control and blank codes
  const Eof := 0
  const Backspace := 8
  const Tab := 9
  const LineFeed := 10
  const VerticalTab := 11
  const FormFeed := 12
  const CarriageReturn := 13
  const Space := 32

  // Punctuation
  const Bang := 33
  const DoubleQuote := 34
  const Hash := 35
  const Dollar := 36
  const Percent := 37
  const Ampersand := 38
  const SingleQuote := 39
  const LeftParen := 40
  const RightParen := 41
  const Star := 42
  const Plus := 43
  const Comma := 44
  const Minus := 45
  const Period := 46
  const Slash := 47
  const Colon := 58
  const Semicolon := 59
  const LessThan := 60
  const Equals := 61
  const GreaterThan := 62
  const Question := 63
  const At := 64

  // Digits
  const Digit0 := 48
  const Digit7 := 55
  const Digit9 := 57

  // Letters
  const UpperA := 65
  const UpperE := 69
  const UpperF := 70
  const UpperX := 88
  const UpperZ := 90
  const LowerA := 97
  const LowerB := 98
  const LowerE := 101
  const LowerF := 102
  const LowerN := 110
  const LowerR := 114
  const LowerT := 116
  const LowerU := 117
  const LowerV := 118
  const LowerX := 120
  const LowerZ := 122

  // Brackets and the rest
  const LeftBracket := 91
  const Backslash := 92
  const RightBracket := 93
  const Caret := 94
  const Underscore := 95
  const Backtick := 96
  const LeftBrace := 123
  const Bar := 124
  const Pipe := 124
  const RightBrace := 125
  const Tilde := 126
  const NonBreakingSpace := 160

  predicate IsWhitespace(code: int) {
    (Tab <= code <= Space) || code == NonBreakingSpace
  }

  predicate IsDigit(code: int) {
    Digit0 <= code <= Digit9
  }

  predicate IsAsciiLetter(code: int) {
    (LowerA <= code <= LowerZ) || (UpperA <= code <= UpperZ)
  }

  predicate IsAsciiHexDigit(code: int) {
    (LowerA <= code <= LowerF) || (UpperA <= code <= UpperF) || IsDigit(code)
  }

  predicate IsNewLine(code: int) {
    code == LineFeed || code == CarriageReturn
  }

  predicate IsOctalDigit(code: int) {
    Digit0 <= code <= Digit7
  }

  predicate IsQuote(code: int) {
    code == SingleQuote || code == DoubleQuote || code == Backtick
  }

  /** How the classes nest, and that the end-of-input sentinel is itself a
      code the lexer skips as blank (it is at most Space). */
  lemma ClassInclusions(code: int)
    ensures IsOctalDigit(code) ==> IsDigit(code)
    ensures IsDigit(code) ==> IsAsciiHexDigit(code)
    ensures IsNewLine(code) ==> IsWhitespace(code)
    ensures IsWhitespace(code) ==> code <= Space || code == NonBreakingSpace
    ensures IsQuote(code) ==> !IsWhitespace(code) && !IsAsciiLetter(code) && !IsDigit(code)
    ensures Eof <= Space && !IsWhitespace(Eof)
  {
  }
}
