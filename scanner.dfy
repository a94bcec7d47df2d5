/** The scanner object of the expression lexer: it holds the input, its
    length, the current index and the lookahead byte, and moves forward one
    byte at a time. Every scanning method is proved to compute the matching
    function of LexerSpec. */
module Lexer {
  import opened Chars
  import opened Tokens
  import opened LexerSpec
  import opened Runes
  import LexerProperties

  class Scanner {
    const input: seq<Byte>
    const length: int
    var peek: int
    var index: int

    /** The lookahead always is the byte at the index (Eof outside the input). */
    ghost predicate Valid()
      reads this
    {
      length == |input| && index >= -1 && peek == PeekAt(input, index)
    }

    /** newScanner: positioned before the first byte. */
    constructor (input: seq<Byte>)
      ensures Valid() && this.input == input && index == -1 && peek == Eof
    {
      this.input := input;
      length := |input|;
      peek := Eof;
      index := -1;
    }

    method Advance()
      requires Valid()
      modifies this
      ensures Valid() && index == old(index) + 1
    {
      index := index + 1;
      if index >= length {
        peek := Eof;
      } else {
        peek := input[index];
      }
    }

    method ScanToken() returns (r: Outcome)
      requires Valid()
      modifies this
      ensures Valid() && Step(r, index) == LexerSpec.ScanToken(input, old(index))
      decreases Ahead(input, index), 1
    {
      SkipBlanks();
      if index >= length {
        return Err(EndOfInput);
      }
      r := Dispatch();
    }

    /** The blank-skipping loop at the head of scanToken, on local copies of
        the index and the lookahead that are stored back at its end. */
    method SkipBlanks()
      requires Valid()
      modifies this
      ensures Valid() && index == SkipBlank(input, old(index))
    {
      var p := peek;
      var i := index;
      while p <= Space
        invariant -1 <= i && p == PeekAt(input, i)
        invariant p <= Space ==> SkipBlank(input, i) == SkipBlank(input, old(index))
        invariant p > Space ==> i == SkipBlank(input, old(index))
        decreases Ahead(input, i)
      {
        i := i + 1;
        if i >= length {
          assert i == SkipBlank(input, i - 1);
          p := Eof;
          break;
        } else {
          p := input[i];
        }
      }
      peek := p;
      index := i;
    }

    /** The rest of scanToken, once the lookahead is a byte above Space. */
    method Dispatch() returns (r: Outcome)
      requires Valid() && 0 <= index < length
      modifies this
      ensures Valid() && Step(r, index) == LexerSpec.Dispatch(input, old(index))
      decreases Ahead(input, index), 0
    {
      if IsIdentifierStart(peek) {
        r := ScanIdentifier();
        return;
      }
      if IsDigit(peek) {
        r := ScanNumber(index);
        return;
      }

      var start := index;
      if peek == Period {
        Advance();
        if IsDigit(peek) {
          r := ScanNumber(start);
        } else {
          r := Ok(NewCharacterToken(start, index, Period));
        }
      } else if IsSingleCharacter(peek) {
        r := ScanCharacter(start, peek);
      } else if peek == SingleQuote || peek == DoubleQuote {
        r := ScanString();
      } else if peek == Hash {
        r := ScanPrivateIdentifier();
      } else if IsSingleOperator(peek) {
        r := ScanOperator(start, [peek]);
      } else if peek == Question {
        r := ScanQuestion(start);
      } else if peek == LessThan || peek == GreaterThan {
        r := ScanComplexOperator(start, [peek], Equals, [Equals]);
      } else if peek == Bang || peek == Equals {
        r := ScanComplexOperatorThree(start, [peek], Equals, [Equals], Equals, [Equals]);
      } else if peek == Ampersand {
        r := ScanComplexOperator(start, [Ampersand], Ampersand, [Ampersand]);
      } else if peek == Bar {
        r := ScanComplexOperator(start, [Bar], Bar, [Bar]);
      } else if peek == NonBreakingSpace {
        while IsWhitespace(peek)
          invariant Valid() && start <= index <= length
          invariant SkipWhitespace(input, index) == SkipWhitespace(input, start)
          decreases length - index
        {
          Advance();
        }
        r := ScanToken();
      } else {
        var code := peek;
        Advance();
        r := Err(UnexpectedCharacter(code));
      }
    }

    method ScanCharacter(start: int, code: int) returns (r: Outcome)
      requires Valid()
      modifies this
      ensures Valid() && index == old(index) + 1
      ensures r == Ok(NewCharacterToken(start, index, code))
    {
      Advance();
      r := Ok(NewCharacterToken(start, index, code));
    }

    method ScanOperator(start: int, str: seq<int>) returns (r: Outcome)
      requires Valid()
      modifies this
      ensures Valid() && index == old(index) + 1
      ensures r == Ok(NewOperatorToken(start, index, str))
    {
      Advance();
      r := Ok(NewOperatorToken(start, index, str));
    }

    method ScanComplexOperator(start: int, one: seq<int>, twoCode: int, two: seq<int>) returns (r: Outcome)
      requires Valid() && start == index && 0 <= index < length && twoCode != Eof
      modifies this
      ensures Valid() && Step(r, index) == LexerSpec.ScanComplexOperator(input, start, one, twoCode, two)
    {
      Advance();
      var str := one;
      if peek == twoCode {
        Advance();
        str := str + two;
      }
      r := Ok(NewOperatorToken(start, index, str));
    }

    method ScanComplexOperatorThree(start: int, one: seq<int>, twoCode: int, two: seq<int>,
                                    threeCode: int, three: seq<int>) returns (r: Outcome)
      requires Valid() && start == index && 0 <= index < length && twoCode != Eof && threeCode != Eof
      modifies this
      ensures Valid()
      ensures Step(r, index) == LexerSpec.ScanComplexOperatorThree(input, start, one, twoCode, two, threeCode, three)
    {
      Advance();
      var str := one;
      if peek == twoCode {
        Advance();
        str := str + two;
      }
      if peek == threeCode {
        Advance();
        str := str + three;
      }
      r := Ok(NewOperatorToken(start, index, str));
    }

    method ScanIdentifier() returns (r: Outcome)
      requires Valid() && 0 <= index < length
      modifies this
      ensures Valid() && Step(r, index) == LexerSpec.ScanIdentifier(input, old(index))
    {
      var start := index;
      Advance();
      while IsIdentifierPart(peek)
        invariant Valid() && start < index <= length
        invariant SkipIdentifierPart(input, index) == SkipIdentifierPart(input, start + 1)
        decreases length - index
      {
        Advance();
      }
      var str := input[start..index];
      if Contains(Keywords, str) {
        r := Ok(NewKeywordToken(start, index, str));
      } else {
        r := Ok(NewIdentifierToken(start, index, str));
      }
    }

    /** Scans an ECMAScript-style private identifier `#name`. */
    method ScanPrivateIdentifier() returns (r: Outcome)
      requires Valid() && 0 <= index < length
      modifies this
      ensures Valid() && Step(r, index) == LexerSpec.ScanPrivateIdentifier(input, old(index))
    {
      var start := index;
      Advance();
      if IsIdentifierStart(peek) {
        return Err(InvalidHashCharacter);
      }
      while IsIdentifierPart(peek)
        invariant Valid() && start < index <= length
        invariant SkipIdentifierPart(input, index) == SkipIdentifierPart(input, start + 1)
        decreases length - index
      {
        Advance();
      }
      r := Ok(NewPrivateIdentifierToken(start, index, input[start..index]));
    }

    method ScanNumber(start: int) returns (r: Outcome)
      requires Valid() && 0 <= start <= index < length && IsDigit(input[index])
      requires index == start || (index == start + 1 && input[start] == Period)
      modifies this
      ensures Valid() && Step(r, index) == LexerSpec.ScanNumber(input, start, old(index))
    {
      ghost var goal := ScanNumberLoop(input, index + 1, index == start, false);
      var simple := index == start;
      var hasSeparators := false;
      Advance();
      while true
        invariant Valid() && start < index <= length
        invariant ScanNumberLoop(input, index, simple, hasSeparators) == goal
        decreases length - index
      {
        var turn := ScanNumberTurn(simple, hasSeparators);
        match turn
        case Next(_, simple', hasSeparators') =>
          simple, hasSeparators := simple', hasSeparators';
        case Stop(LoopFailed(step)) =>
          return step.outcome;
        case Stop(LoopDone(_, _, _)) =>
          break;
      }
      var str := input[start..index];
      r := Ok(NewNumberToken(start, index, NumberValue(str, simple, hasSeparators)));
    }

    /** One turn of scanNumber's loop, ending with the advance that closes the
        turn when the loop goes on. */
    method ScanNumberTurn(simple: bool, hasSeparators: bool) returns (turn: NumberTurn)
      requires Valid() && 0 < index <= length
      modifies this
      ensures Valid() && turn == NumberLoopTurn(input, old(index), simple, hasSeparators)
      ensures turn.Next? ==> index == turn.at
      ensures turn.Stop? && turn.result.LoopDone? ==> index == old(index)
      ensures turn.Stop? && turn.result.LoopFailed? ==> index == turn.result.step.next
    {
      if IsDigit(peek) {
        // Do nothing.
        Advance();
        return Next(index, simple, hasSeparators);
      } else if peek == Underscore {
        // A separator must sit between two digits.
        if !IsDigit(input[index - 1]) {
          return Stop(LoopFailed(Step(Err(InvalidNumericSeparator), index)));
        }
        if index + 1 >= length {
          // The source reads the byte after the separator here, past the end.
          return Stop(LoopFailed(Step(Panic, index)));
        }
        if !IsDigit(input[index + 1]) {
          return Stop(LoopFailed(Step(Err(InvalidNumericSeparator), index)));
        }
        Advance();
        return Next(index, simple, true);
      } else if peek == Period {
        Advance();
        return Next(index, false, hasSeparators);
      } else if IsExponentStart(peek) {
        Advance();
        if IsExponentSign(peek) {
          Advance();
        }
        if !IsDigit(peek) {
          return Stop(LoopFailed(Step(Err(InvalidExponent), index)));
        }
        Advance();
        return Next(index, false, hasSeparators);
      } else {
        return Stop(LoopDone(index, simple, hasSeparators));
      }
    }

    method ScanString() returns (r: Outcome)
      requires Valid() && 0 <= index < length && input[index] != Eof
      modifies this
      ensures Valid() && Step(r, index) == LexerSpec.ScanString(input, old(index))
    {
      var start := index;
      var quote := peek;
      ghost var goal := LexerSpec.ScanString(input, start);
      Advance();
      var buffer: seq<int> := [];
      ghost var pieces: seq<Piece> := [];
      var marker := index;
      while peek != quote
        invariant Valid() && start < marker <= index <= length + 1
        invariant ScanStringLoop(input, start, quote, index, marker, pieces) == goal
        invariant buffer == Render(pieces)
        decreases length + 1 - index
      {
        if peek == Backslash {
          var escape;
          escape, buffer, pieces := EscapeTurn(start, quote, marker, buffer, pieces);
          if escape.EscapeFailed? {
            return escape.step.outcome;
          }
          marker := index;
        } else if peek == Eof {
          EofTurn(input, start, quote, index, marker, pieces);
          return Err(UnterminatedQuote);
        } else {
          PlainStep(start, quote, marker, pieces);
        }
      }
      r := CloseString(start, quote, marker, buffer, pieces);
    }

    /** The closing quote of scanString: the raw run from marker ends the
        buffer, and the token runs past the quote. */
    method CloseString(start: int, ghost quote: int, marker: int, buffer: seq<int>, ghost pieces: seq<Piece>)
      returns (r: Outcome)
      requires Valid() && 0 <= start < marker <= index <= length && quote != Eof
      requires peek == quote && buffer == Render(pieces)
      modifies this
      ensures Valid() && Step(r, index) == ScanStringLoop(input, start, quote, old(index), marker, pieces)
    {
      QuoteTurn(input, start, quote, index, marker, pieces);
      var last := input[marker..index];
      Advance();
      r := Ok(NewStringToken(start, index, buffer + last));
    }

    /** Any other byte of scanString's loop stays in the raw run. */
    method PlainStep(ghost start: int, ghost quote: int, ghost marker: int, ghost pieces: seq<Piece>)
      requires Valid() && 0 <= start < marker <= index <= length && quote != Eof
      requires peek != quote && peek != Backslash && peek != Eof
      modifies this
      ensures Valid() && index == old(index) + 1
      ensures ScanStringLoop(input, start, quote, index, marker, pieces) ==
              ScanStringLoop(input, start, quote, old(index), marker, pieces)
    {
      PlainTurn(input, start, quote, index, marker, pieces);
      Advance();
    }

    /** The backslash branch of scanString's loop, the scanner on the
        backslash: the raw run from marker goes into the buffer, then the
        escape's bytes, or the escape's error ends the string. */
    method EscapeTurn(ghost start: int, ghost quote: int, marker: int, buffer: seq<int>, ghost pieces: seq<Piece>)
      returns (escape: Escape, newBuffer: seq<int>, ghost newPieces: seq<Piece>)
      requires Valid() && 0 <= start < marker <= index < length && input[index] == Backslash
      requires quote != Eof && quote != Backslash && buffer == Render(pieces)
      modifies this
      ensures Valid()
      ensures escape.EscapeFailed? ==>
                index == escape.step.next &&
                escape.step == ScanStringLoop(input, start, quote, old(index), marker, pieces)
      ensures escape.Decoded? ==>
                index == escape.next && old(index) < index <= length + 1 && newBuffer == Render(newPieces) &&
                ScanStringLoop(input, start, quote, index, index, newPieces) ==
                ScanStringLoop(input, start, quote, old(index), marker, pieces)
    {
      ghost var i := index;
      RenderAppend(pieces, Raw(input[marker..index]));
      newBuffer := buffer + input[marker..index];
      newPieces := pieces + [Raw(input[marker..index])];
      Advance();
      escape := ScanEscape();
      if escape.EscapeFailed? {
        EscapeTurnFailed(input, start, quote, i, marker, pieces);
      } else {
        EscapeTurnDecoded(input, start, quote, i, marker, pieces);
        RenderAppend(newPieces, Rune(escape.code));
        newBuffer := newBuffer + EncodeRune(escape.code);
        newPieces := newPieces + [Rune(escape.code)];
      }
    }

    /** The escape after a backslash in scanString, the scanner standing on
        the byte after the backslash. */
    method ScanEscape() returns (escape: Escape)
      requires Valid() && 0 < index <= length
      modifies this
      ensures Valid() && escape == LexerSpec.ScanEscape(input, old(index))
      ensures escape.Decoded? ==> index == escape.next
      ensures escape.EscapeFailed? ==> index == escape.step.next
    {
      var unescapedCode: int;
      if peek == LowerU {
        if index + 5 > length {
          // The four-byte window after `\u` runs past the end of the input.
          return EscapeFailed(Step(Panic, index));
        }
        var hex := input[index + 1..index + 5];
        if forall k :: 0 <= k < |hex| ==> IsLowerHex(hex[k]) {
          unescapedCode := HexValue(hex);
        } else {
          return EscapeFailed(Step(Err(InvalidUnicodeEscape(hex)), index));
        }
        ghost var u := index;
        for n := 0 to 5
          invariant Valid() && index == u + n
        {
          Advance();
        }
      } else {
        unescapedCode := Unescape(peek);
        Advance();
      }
      return Decoded(unescapedCode, index);
    }

    method ScanQuestion(start: int) returns (r: Outcome)
      requires Valid() && start == index && 0 <= index < length
      modifies this
      ensures Valid() && Step(r, index) == LexerSpec.ScanQuestion(input, start)
    {
      Advance();
      var str := [Question];
      // Either `a ?? b` or `a?.b`.
      if peek == Question || peek == Period {
        if peek == Period {
          str := str + [Period];
        } else {
          str := str + [Question];
        }
        Advance();
      }
      r := Ok(NewOperatorToken(start, index, str));
    }
  }

  /** What Tokenize's loop still yields once `acc` is collected and the last
      scan gave `outcome`, leaving the scanner at index i. */
  function Continue(input: seq<Byte>, outcome: Outcome, i: int, acc: seq<Token>): TokenizeResult
    requires i >= -1
  {
    match outcome
    case Ok(t) => TokensFrom(input, i, acc + [t])
    case Err(_) => Tokens(acc)
    case Panic => Crashed
  }

  /** Tokenize: collect tokens until the first error (end of input included). */
  method Tokenize(text: seq<Byte>) returns (r: TokenizeResult)
    ensures r == LexerSpec.Tokenize(text)
  {
    var scanner := new Scanner(text);
    var tokens: seq<Token> := [];
    var outcome := scanner.ScanToken();
    while outcome.Ok?
      invariant scanner.Valid() && scanner.input == text
      invariant outcome.Ok? ==> scanner.index <= |text|
      invariant Continue(text, outcome, scanner.index, tokens) == LexerSpec.Tokenize(text)
      decreases Ahead(text, scanner.index)
    {
      tokens := tokens + [outcome.token];
      ghost var before := scanner.index;
      outcome := scanner.ScanToken();
      assert scanner.index > before;
    }
    if outcome.Panic? {
      r := Crashed;
    } else {
      r := Tokens(tokens);
    }
  }

  /** IsIdentifier as written: the test on the initial lookahead (always Eof)
      never rejects, and the loop rejects at the first identifier-part byte. */
  method IsIdentifier(text: seq<Byte>) returns (b: bool)
    ensures b == IsIdentifierAsWritten(text)
  {
    if |text| == 0 {
      return false;
    }
    var scanner := new Scanner(text);
    // The source tests the lookahead before the first advance, when it is still Eof.
    var rejectedAtStart := IsIdentifierStart(scanner.peek);
    scanner.Advance();
    while !rejectedAtStart && scanner.peek != Eof
      invariant scanner.Valid() && scanner.input == text && 0 <= scanner.index <= FirstNul(text)
      invariant forall j :: 0 <= j < scanner.index ==> !IsIdentifierPart(text[j])
      decreases |text| - scanner.index
    {
      if IsIdentifierPart(scanner.peek) {
        return false;
      }
      scanner.Advance();
    }
    return !rejectedAtStart;
  }

  /** IsIdentifier as evidently intended: the start test looks at the first
      byte, after the first advance, and the loop rejects at the first byte
      that is not an identifier part. */
  method IsIdentifierCorrected(text: seq<Byte>) returns (b: bool)
    ensures b == LexerProperties.IsIdentifierIntended(text)
  {
    if |text| == 0 {
      return false;
    }
    var scanner := new Scanner(text);
    scanner.Advance();
    if !IsIdentifierStart(scanner.peek) {
      return false;
    }
    scanner.Advance();
    while scanner.peek != Eof
      invariant scanner.Valid() && scanner.input == text && 1 <= scanner.index <= FirstNul(text)
      invariant forall j :: 1 <= j < scanner.index ==> IsIdentifierPart(text[j])
      decreases |text| - scanner.index
    {
      if !IsIdentifierPart(scanner.peek) {
        return false;
      }
      scanner.Advance();
    }
    return true;
  }
}
