/** Lexical tokens of the expression language: their kinds, payloads,
    constructors and the predicates the parser asks of them, plus the keyword table. */
module Tokens {

  /** A byte of the expression text. */
  type Byte = b: int | 0 <= b < 256

  datatype TokenType =
    | Character
    | Identifier
    | PrivateIdentifier
    | Keyword
    | String
    | Operator
    | Number
    | Error

  /** The numeric payload. A simple integer literal carries its decimal value;
      a literal with a period or an exponent is converted by a floating-point
      parse that this model does not interpret, so it carries the text that
      parse is given (digit separators already removed). */
  datatype NumValue = Int(n: int) | ParsedFloat(text: seq<int>)

  /** A token with its half-open span [index, end) into the input. */
  datatype Token = Token(index: int, end: int, kind: TokenType, numValue: NumValue, strValue: seq<int>)
  {
    predicate IsCharacter(code: int) { kind == Character && numValue == Int(code) }
    predicate IsNumber() { kind == Number }
    predicate IsString() { kind == String }
    predicate IsOperator(operator: seq<int>) { kind == Operator && strValue == operator }
    predicate IsIdentifier() { kind == Identifier }
    predicate IsPrivateIdentifier() { kind == PrivateIdentifier }
    predicate IsKeyword() { kind == Keyword }
    predicate IsKeywordLet() { kind == Keyword && strValue == Ascii("let") }
    predicate IsKeywordAs() { kind == Keyword && strValue == Ascii("as") }
    predicate IsKeywordNull() { kind == Keyword && strValue == Ascii("null") }
    predicate IsKeywordUndefined() { kind == Keyword && strValue == Ascii("undefined") }
    predicate IsKeywordTrue() { kind == Keyword && strValue == Ascii("true") }
    predicate IsKeywordFalse() { kind == Keyword && strValue == Ascii("false") }
    predicate IsKeywordThis() { kind == Keyword && strValue == Ascii("this") }
    predicate IsError() { kind == Error }
  }

  /** The byte codes of an ASCII string literal. */
  function Ascii(s: string): seq<int> {
    seq(|s|, i requires 0 <= i < |s| => s[i] as int)
  }

  function NewCharacterToken(index: int, end: int, code: int): Token {
    Token(index, end, Character, Int(code), [code])
  }

  function NewIdentifierToken(index: int, end: int, text: seq<int>): Token {
    Token(index, end, Identifier, Int(0), text)
  }

  function NewPrivateIdentifierToken(index: int, end: int, text: seq<int>): Token {
    Token(index, end, PrivateIdentifier, Int(0), text)
  }

  function NewKeywordToken(index: int, end: int, text: seq<int>): Token {
    Token(index, end, Keyword, Int(0), text)
  }

  function NewOperatorToken(index: int, end: int, text: seq<int>): Token {
    Token(index, end, Operator, Int(0), text)
  }

  function NewStringToken(index: int, end: int, text: seq<int>): Token {
    Token(index, end, String, Int(0), text)
  }

  function NewNumberToken(index: int, end: int, n: NumValue): Token {
    Token(index, end, Number, n, [])
  }

  /** The ten keywords, in the order of the source's table. */
  const Keywords: seq<seq<int>> := [
    Ascii("var"), Ascii("let"), Ascii("as"), Ascii("null"), Ascii("undefined"),
    Ascii("true"), Ascii("false"), Ascii("if"), Ascii("else"), Ascii("this")
  ]

  /** Linear search of a table of texts, as the source does it. */
  function Contains(table: seq<seq<int>>, text: seq<int>): (found: bool)
    ensures found <==> text in table
  {
    if table == [] then false
    else if table[0] == text then true
    else Contains(table[1..], text)
  }

  /** Each constructor builds a token its own predicate recognises, and a
      keyword token is recognised by exactly the keyword predicate of its text. */
  lemma ConstructorsMatchPredicates(index: int, end: int, code: int, text: seq<int>)
    ensures NewCharacterToken(index, end, code).IsCharacter(code)
    ensures NewCharacterToken(index, end, code).strValue == [code]
    ensures NewIdentifierToken(index, end, text).IsIdentifier()
    ensures NewPrivateIdentifierToken(index, end, text).IsPrivateIdentifier()
    ensures NewOperatorToken(index, end, text).IsOperator(text)
    ensures NewStringToken(index, end, text).IsString()
    ensures NewKeywordToken(index, end, Ascii("let")).IsKeywordLet()
    ensures !NewKeywordToken(index, end, Ascii("let")).IsKeywordAs()
    ensures !NewIdentifierToken(index, end, text).IsError()
  {
    assert Ascii("let") != Ascii("as") by {
      assert |Ascii("let")| == 3 && |Ascii("as")| == 2;
    }
  }
}
