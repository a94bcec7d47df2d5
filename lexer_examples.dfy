/** The lexer on particular inputs, including the behaviours where it departs
    from what its comments or its TypeScript original suggest. Inputs are
    written as byte codes, with the text in the comment. */
module LexerExamples {
  import opened Chars
  import opened Runes
  import opened Tokens
  import opened LexerSpec
  import opened LexerProperties

  /** `1_0_1` is the integer 101. */
  lemma SeparatedNumber()
    ensures Tokenize([49, 95, 48, 95, 49]) == Tokens([NewNumberToken(0, 5, Int(101))])
  {
    var input: seq<Byte> := [49, 95, 48, 95, 49];
    assert ScanNumberLoop(input, 1, true, false) == LoopDone(5, true, true);
    assert RemoveSeparators([49, 95, 48, 95, 49]) == [49, 48, 49];
    assert DecimalValue([49, 48, 49]) == 101 by {
      assert [49, 48, 49][..2] == [49, 48];
      assert [49, 48][..1] == [49];
      assert [49][..0] == [];
    }
    assert input[0..5] == input;
    assert ScanNumber(input, 0, 0) == Step(Ok(NewNumberToken(0, 5, Int(101))), 5);
    assert SkipBlank(input, -1) == 0;
    assert ScanToken(input, -1) == Step(Ok(NewNumberToken(0, 5, Int(101))), 5);
    assert ScanToken(input, 5) == Step(Err(EndOfInput), 6);
  }

  /** `101_`: the separator check reads the byte after the `_`, past the end
      of the input, and the program fails instead of reporting an error. */
  lemma TrailingSeparatorFails()
    ensures Tokenize([49, 48, 49, 95]) == Crashed
  {
    var input: seq<Byte> := [49, 48, 49, 95];
    assert ScanNumberLoop(input, 1, true, false) == LoopFailed(Step(Panic, 3));
    assert ScanToken(input, -1) == Step(Panic, 3);
  }

  /** `1__0`: a separator next to a separator is an error. */
  lemma DoubleSeparator()
    ensures ScanToken([49, 95, 95, 48], -1) == Step(Err(InvalidNumericSeparator), 1)
  {
    var input: seq<Byte> := [49, 95, 95, 48];
    assert ScanNumberLoop(input, 1, true, false) == LoopFailed(Step(Err(InvalidNumericSeparator), 1));
  }

  /** `_101` is an identifier, not a number. */
  lemma LeadingUnderscore()
    ensures ScanToken([95, 49, 48, 49], -1) == Step(Ok(NewIdentifierToken(0, 4, [95, 49, 48, 49])), 4)
  {
    var input: seq<Byte> := [95, 49, 48, 49];
    assert SkipIdentifierPart(input, 1) == 4;
    assert input[0..4] == input;
    assert input !in Keywords by {
      forall w | w in Keywords ensures w[0] != 95 {
      }
    }
    assert ScanIdentifier(input, 0) == Step(Ok(NewIdentifierToken(0, 4, input)), 4);
    assert SkipBlank(input, -1) == 0;
  }

  /** `1e+5` goes to the float parse; `1e` is an exponent error. */
  lemma Exponents()
    ensures ScanToken([49, 101, 43, 53], -1) == Step(Ok(NewNumberToken(0, 4, ParsedFloat([49, 101, 43, 53]))), 4)
    ensures ScanToken([49, 101], -1) == Step(Err(InvalidExponent), 2)
  {
    var a: seq<Byte> := [49, 101, 43, 53];
    assert ScanNumberLoop(a, 1, true, false) == LoopDone(4, false, false);
    assert a[0..4] == a;
    var b: seq<Byte> := [49, 101];
    assert ScanNumberLoop(b, 1, true, false) == LoopFailed(Step(Err(InvalidExponent), 2));
  }

  /** `.5` is a number starting at the period; `.a` starts with a period character. */
  lemma Periods()
    ensures ScanToken([46, 53], -1) == Step(Ok(NewNumberToken(0, 2, ParsedFloat([46, 53]))), 2)
    ensures ScanToken([46, 97], -1) == Step(Ok(NewCharacterToken(0, 1, Period)), 1)
  {
    var a: seq<Byte> := [46, 53];
    assert ScanNumberLoop(a, 2, false, false) == LoopDone(2, false, false);
    assert a[0..2] == a;
  }

  /** The pieces of a string that is one escape render to its bytes. */
  lemma RenderOneRune(code: int)
    ensures Render([Raw([]), Rune(code), Raw([])]) == EncodeRune(code)
  {
    RenderAppend([Raw([]), Rune(code)], Raw([]));
    RenderAppend([Raw([])], Rune(code));
    RenderAppend([], Raw([]));
    assert [Raw([]), Rune(code), Raw([])][..2] == [Raw([]), Rune(code)];
    assert [Raw([]), Rune(code)][..1] == [Raw([])];
  }

  /** A quoted string of one six-byte escape holds the escape's bytes. */
  lemma OneEscapeString(a: seq<Byte>, code: int)
    requires |a| == 8 && a[0] == 39 && a[1] == Backslash && a[7] == 39
    requires ScanEscape(a, 2) == Decoded(code, 7)
    ensures ScanToken(a, -1) == Step(Ok(NewStringToken(0, 8, EncodeRune(code))), 8)
  {
    EscapeTurnDecoded(a, 0, 39, 1, 1, []);
    assert a[1..1] == [] && a[7..7] == [];
    var pieces := [] + [Raw([])] + [Rune(code)];
    assert pieces + [Raw([])] == [Raw([]), Rune(code), Raw([])];
    RenderOneRune(code);
    assert ScanStringLoop(a, 0, 39, 7, 7, pieces) == Step(Ok(NewStringToken(0, 8, EncodeRune(code))), 8);
  }

  /** `'\u0041'` decodes to the single byte 65. */
  lemma UnicodeEscape()
    ensures ScanToken([39, 92, 117, 48, 48, 52, 49, 39], -1) ==
            Step(Ok(NewStringToken(0, 8, [65])), 8)
  {
    var a: seq<Byte> := [39, 92, 117, 48, 48, 52, 49, 39];
    assert a[3..7] == [48, 48, 52, 49];
    assert HexValue([48, 48, 52, 49]) == 65 by {
      assert [48, 48, 52, 49][..3] == [48, 48, 52];
      assert [48, 48, 52][..2] == [48, 48];
      assert [48, 48][..1] == [48];
      assert [48][..0] == [];
    }
    assert ScanEscape(a, 2) == Decoded(65, 7);
    OneEscapeString(a, 65);
  }

  /** `'\u00e9'` decodes to the two UTF-8 bytes C3 A9 of U+00E9. */
  lemma TwoByteEscape()
    ensures ScanToken([39, 92, 117, 48, 48, 101, 57, 39], -1) ==
            Step(Ok(NewStringToken(0, 8, [0xC3, 0xA9])), 8)
  {
    var a: seq<Byte> := [39, 92, 117, 48, 48, 101, 57, 39];
    assert a[3..7] == [48, 48, 101, 57];
    assert HexValue([48, 48, 101, 57]) == 0xE9 by {
      assert [48, 48, 101, 57][..3] == [48, 48, 101];
      assert [48, 48, 101][..2] == [48, 48];
      assert [48, 48][..1] == [48];
      assert [48][..0] == [];
    }
    assert ScanEscape(a, 2) == Decoded(0xE9, 7);
    OneEscapeString(a, 0xE9);
    assert EncodeRune(0xE9) == [0xC3, 0xA9] by {
      assert High(0xE9) == 3 && Low6(0xE9) == 0x29;
    }
  }

  /** A backslash before the first byte of `é` (C3 A9): the escaped byte C3
      goes into the value as the UTF-8 bytes C3 83 of U+00C3, and A9 is
      copied, so the value is C3 83 A9. */
  lemma EscapedHighByte()
    ensures ScanToken([39, 92, 0xC3, 0xA9, 39], -1) ==
            Step(Ok(NewStringToken(0, 5, [0xC3, 0x83, 0xA9])), 5)
  {
    var a: seq<Byte> := [39, 92, 0xC3, 0xA9, 39];
    EscapedHighByteBody(a);
    assert ScanToken(a, -1) == ScanString(a, 0);
  }

  /** The string loop over the body of `'\é'`. */
  lemma EscapedHighByteBody(a: seq<Byte>)
    requires a == [39, 92, 0xC3, 0xA9, 39]
    ensures ScanStringLoop(a, 0, 39, 1, 1, []) == Step(Ok(NewStringToken(0, 5, [0xC3, 0x83, 0xA9])), 5)
  {
    assert ScanEscape(a, 2) == Decoded(0xC3, 3);
    EscapeTurnDecoded(a, 0, 39, 1, 1, []);
    assert a[1..1] == [];
    var pieces := [] + [Raw([])] + [Rune(0xC3)];
    PlainTurn(a, 0, 39, 3, 3, pieces);
    QuoteTurn(a, 0, 39, 4, 3, pieces);
    assert a[3..4] == [0xA9];
    RenderAppend([Raw([])], Rune(0xC3));
    RenderAppend([], Raw([]));
    assert pieces == [Raw([])] + [Rune(0xC3)];
    assert EncodeRune(0xC3) == [0xC3, 0x83] by {
      assert High(0xC3) == 3 && Low6(0xC3) == 3;
    }
  }

  /** `'\u00AF'` is rejected: only lower-case hex digits are accepted. */
  lemma UpperCaseUnicodeEscape()
    ensures ScanToken([39, 92, 117, 48, 48, 65, 70, 39], -1) ==
            Step(Err(InvalidUnicodeEscape([48, 48, 65, 70])), 2)
  {
    var b: seq<Byte> := [39, 92, 117, 48, 48, 65, 70, 39];
    assert b[3..7] == [48, 48, 65, 70];
    assert !IsLowerHex(b[3..7][2]);
    assert ScanEscape(b, 2) == EscapeFailed(Step(Err(InvalidUnicodeEscape([48, 48, 65, 70])), 2));
  }

  /** `'\u12`: fewer than four bytes after `\u`, and the program fails. */
  lemma ShortUnicodeEscapeFails()
    ensures ScanToken([39, 92, 117, 49, 50], -1).outcome == Panic
  {
    var a: seq<Byte> := [39, 92, 117, 49, 50];
    assert ScanEscape(a, 2) == EscapeFailed(Step(Panic, 2));
  }

  /** `'ab`: the input ends before the closing quote. */
  lemma UnterminatedString()
    ensures ScanToken([39, 97, 98], -1) == Step(Err(UnterminatedQuote), 3)
  {
  }

  /** A lone `&` or `|` is an operator, not an error. */
  lemma LoneAmpersandAndBar()
    ensures ScanToken([38], -1) == Step(Ok(NewOperatorToken(0, 1, [Ampersand])), 1)
    ensures ScanToken([124, 32], -1) == Step(Ok(NewOperatorToken(0, 1, [Bar])), 1)
  {
  }

  /** A backtick does not open a string: it is an unexpected character. */
  lemma BacktickIsUnexpected()
    ensures ScanToken([96, 97, 96], -1) == Step(Err(UnexpectedCharacter(Backtick)), 1)
    ensures Tokenize([96, 97, 96]) == Tokens([])
  {
  }

  /** `#a` is an error; `#1` is the private identifier `#1`. */
  lemma HashFollowers()
    ensures ScanToken([35, 97], -1) == Step(Err(InvalidHashCharacter), 1)
    ensures ScanToken([35, 49], -1) == Step(Ok(NewPrivateIdentifierToken(0, 2, [35, 49])), 2)
  {
    var b: seq<Byte> := [35, 49];
    assert SkipIdentifierPart(b, 1) == 2;
    assert b[0..2] == b;
  }

  /** Blank input, NUL bytes included, gives no tokens. */
  lemma BlankInput()
    ensures Tokenize([32, 9, 0, 10]) == Tokens([])
  {
  }

  /** `let` is a keyword. */
  lemma LetIsKeyword()
    ensures ScanToken([108, 101, 116], -1) == Step(Ok(NewKeywordToken(0, 3, Ascii("let"))), 3)
  {
    var input: seq<Byte> := [108, 101, 116];
    assert SkipIdentifierPart(input, 1) == 3;
    assert input[0..3] == input == Ascii("let");
    assert Contains(Keywords, input);
  }

  /** IsIdentifier as written rejects `abc123` and accepts `+-`; the
      intended check does the opposite. */
  lemma IsIdentifierInverted()
    ensures !IsIdentifierAsWritten([97, 98, 99, 49, 50, 51]) && IsIdentifierIntended([97, 98, 99, 49, 50, 51])
    ensures IsIdentifierAsWritten([43, 45]) && !IsIdentifierIntended([43, 45])
    ensures !IsIdentifierAsWritten([]) && !IsIdentifierIntended([])
  {
    var a: seq<Byte> := [97, 98, 99, 49, 50, 51];
    assert FirstNul(a) == 6 by {
      assert a[1..][1..][1..][1..][1..][1..] == [];
    }
    var b: seq<Byte> := [43, 45];
    assert FirstNul(b) == 2 by {
      assert b[1..][1..] == [];
    }
  }
}
