/** The expression lexer as functions of (input, position): one function per
    scanning routine, each giving the outcome of the routine and the index
    the scanner is left at. The Scanner class in module Lexer is proved to
    compute exactly these. */
module LexerSpec {
  import opened Chars
  import opened Tokens
  import opened Runes

  /** Why a scan did not produce a token. EndOfInput is the "null" error the
      scanner returns once the input is exhausted. */
  datatype LexError =
    | EndOfInput
    | UnexpectedCharacter(code: int)
    | InvalidHashCharacter
    | InvalidNumericSeparator
    | InvalidExponent
    | InvalidUnicodeEscape(hex: seq<int>)
    | UnterminatedQuote

  /** A token, an error return, or a runtime index-out-of-range failure of the
      source (an access past the end of the input that aborts the program). */
  datatype Outcome = Ok(token: Token) | Err(error: LexError) | Panic

  /** The outcome of one scanning routine and the scanner index it leaves. */
  datatype Step = Step(outcome: Outcome, next: int)

  /** The lookahead at position i: the byte there, or Eof outside the input. */
  function PeekAt(input: seq<Byte>, i: int): (c: int)
    ensures 0 <= c < 256
    ensures c == Eof <==> (i < 0 || i >= |input| || input[i] == 0)
  {
    if 0 <= i < |input| then input[i] else Eof
  }

  predicate IsIdentifierStart(code: int) {
    (LowerA <= code <= LowerZ) || (UpperA <= code <= UpperZ) || code == Underscore || code == Dollar
  }

  predicate IsIdentifierPart(code: int) {
    IsAsciiLetter(code) || IsDigit(code) || code == Underscore || code == Dollar
  }

  predicate IsExponentStart(code: int) {
    code == LowerE || code == UpperE
  }

  predicate IsExponentSign(code: int) {
    code == Minus || code == Plus
  }

  /** The code an escaped byte stands for: only `n f r t v` change, each to
      its control character; every other byte stands for itself. */
  function Unescape(code: int): (r: int)
    ensures r != code <==> code in [LowerN, LowerF, LowerR, LowerT, LowerV]
    ensures r != code ==> r < Space
  {
    if code == LowerN then LineFeed
    else if code == LowerF then FormFeed
    else if code == LowerR then CarriageReturn
    else if code == LowerT then Tab
    else if code == LowerV then VerticalTab
    else code
  }

  /** Bytes accepted by the pattern ^[0-9a-f]+$ (lower-case hex only). */
  predicate IsLowerHex(code: int) {
    IsDigit(code) || (LowerA <= code <= LowerF)
  }

  function HexDigitValue(code: int): (v: nat)
    requires IsLowerHex(code)
    ensures v < 16
  {
    if IsDigit(code) then code - Digit0 else code - LowerA + 10
  }

  /** Base-16 value of a lower-case hex string. */
  function HexValue(hex: seq<int>): (v: nat)
    requires forall k :: 0 <= k < |hex| ==> IsLowerHex(hex[k])
  {
    if hex == [] then 0 else HexValue(hex[..|hex| - 1]) * 16 + HexDigitValue(hex[|hex| - 1])
  }

  /** Base-10 value of a string of digits, read most significant digit first
      (the lexer only hands it digit strings; see LexerProperties). */
  function DecimalValue(digits: seq<int>): int
  {
    if digits == [] then 0
    else DecimalValue(digits[..|digits| - 1]) * 10 + (digits[|digits| - 1] - Digit0)
  }

  /** The text with every digit separator removed. */
  function RemoveSeparators(text: seq<int>): (r: seq<int>)
    ensures Underscore !in r
    ensures forall c :: c in r ==> c in text
  {
    if text == [] then []
    else if text[0] == Underscore then RemoveSeparators(text[1..])
    else [text[0]] + RemoveSeparators(text[1..])
  }

  /** A measure of the input still ahead of position i. */
  function Ahead(input: seq<Byte>, i: int): nat {
    if -1 <= i <= |input| then |input| + 1 - i else 0
  }

  /** The blank-skipping loop at the head of scanToken: from position i, move
      forward while the lookahead is at most Space, stopping one past the end. */
  function SkipBlank(input: seq<Byte>, i: int): (s: int)
    requires i >= -1
    ensures s >= i
    ensures s >= |input| || PeekAt(input, s) > Space
    ensures s < |input| ==> s >= 0
    ensures forall j :: i < j < s && j < |input| ==> input[j] <= Space
    ensures PeekAt(input, i) > Space ==> s == i
    ensures s > i ==> PeekAt(input, i) <= Space
    decreases Ahead(input, i)
  {
    if PeekAt(input, i) > Space then i
    else if i + 1 >= |input| then i + 1
    else SkipBlank(input, i + 1)
  }

  /** Advance while the lookahead is an identifier part. */
  function SkipIdentifierPart(input: seq<Byte>, j: int): (e: int)
    requires 0 <= j
    ensures j <= e
    ensures e <= |input| || e == j
    ensures !IsIdentifierPart(PeekAt(input, e))
    ensures forall k :: j <= k < e ==> IsIdentifierPart(input[k])
    decreases |input| - j
  {
    if IsIdentifierPart(PeekAt(input, j)) then SkipIdentifierPart(input, j + 1) else j
  }

  /** Advance while the lookahead is whitespace (the non-breaking-space run). */
  function SkipWhitespace(input: seq<Byte>, j: int): (e: int)
    requires 0 <= j
    ensures j <= e
    ensures e <= |input| || e == j
    ensures !IsWhitespace(PeekAt(input, e))
    ensures forall k :: j <= k < e ==> IsWhitespace(input[k])
    decreases |input| - j
  {
    if IsWhitespace(PeekAt(input, j)) then SkipWhitespace(input, j + 1) else j
  }

  /** scanIdentifier at position s. */
  function ScanIdentifier(input: seq<Byte>, s: int): (r: Step)
    requires 0 <= s < |input|
    ensures r.outcome.Ok? && r.outcome.token.index == s < r.outcome.token.end == r.next <= |input|
  {
    var e := SkipIdentifierPart(input, s + 1);
    var text := input[s..e];
    if Contains(Keywords, text) then Step(Ok(NewKeywordToken(s, e, text)), e)
    else Step(Ok(NewIdentifierToken(s, e, text)), e)
  }

  /** scanPrivateIdentifier at position s (the '#'). */
  function ScanPrivateIdentifier(input: seq<Byte>, s: int): (r: Step)
    requires 0 <= s < |input|
    ensures r.outcome.Ok? ==> r.outcome.token.index == s < r.outcome.token.end == r.next <= |input|
    ensures r.outcome.Ok? || r.outcome == Err(InvalidHashCharacter)
    ensures r.next > s
  {
    if IsIdentifierStart(PeekAt(input, s + 1)) then Step(Err(InvalidHashCharacter), s + 1)
    else
      var e := SkipIdentifierPart(input, s + 1);
      Step(Ok(NewPrivateIdentifierToken(s, e, input[s..e])), e)
  }

  /** The ways scanNumber can fail: a misplaced separator, an exponent
      without digits, or the read past the end after a final separator. */
  predicate NumberFailure(o: Outcome) {
    o == Err(InvalidNumericSeparator) || o == Err(InvalidExponent) || o == Panic
  }

  /** The ways scanString can fail: the input ends first, a unicode escape
      is not lower-case hex, or its window runs past the end. */
  predicate StringFailure(o: Outcome) {
    o == Err(UnterminatedQuote) || (o.Err? && o.error.InvalidUnicodeEscape?) || o == Panic
  }

  /** The state the loop of scanNumber ends in: where it stopped, and the
      final values of its `simple` and `hasSeparators` flags. */
  datatype NumberLoop = LoopDone(end: int, simple: bool, hasSeparators: bool) | LoopFailed(step: Step)

  /** One turn of scanNumber's loop at position i: either the loop goes on
      from a later position with updated flags, or it ends. */
  datatype NumberTurn = Next(at: int, simple: bool, hasSeparators: bool) | Stop(result: NumberLoop)

  function NumberLoopTurn(input: seq<Byte>, i: int, simple: bool, hasSeparators: bool): (t: NumberTurn)
    requires 0 < i <= |input|
    ensures t.Next? ==> i < t.at <= |input|
    ensures t.Stop? && t.result.LoopDone? ==> t.result.end == i
    ensures t.Stop? && t.result.LoopFailed? ==> !t.result.step.outcome.Ok? && t.result.step.next >= i
    ensures t.Stop? && t.result.LoopFailed? ==> NumberFailure(t.result.step.outcome)
  {
    var p := PeekAt(input, i);
    if IsDigit(p) then Next(i + 1, simple, hasSeparators)
    else if p == Underscore then
      if !IsDigit(input[i - 1]) then Stop(LoopFailed(Step(Err(InvalidNumericSeparator), i)))
      else if i + 1 >= |input| then Stop(LoopFailed(Step(Panic, i)))
      else if !IsDigit(input[i + 1]) then Stop(LoopFailed(Step(Err(InvalidNumericSeparator), i)))
      else Next(i + 1, simple, true)
    else if p == Period then Next(i + 1, false, hasSeparators)
    else if IsExponentStart(p) then
      var j := if IsExponentSign(PeekAt(input, i + 1)) then i + 2 else i + 1;
      if !IsDigit(PeekAt(input, j)) then Stop(LoopFailed(Step(Err(InvalidExponent), j)))
      else Next(j + 1, false, hasSeparators)
    else Stop(LoopDone(i, simple, hasSeparators))
  }

  /** The loop of scanNumber, from position i (i > start): simple is cleared
      by a period or an exponent, hasSeparators set by a valid separator. */
  function ScanNumberLoop(input: seq<Byte>, i: int, simple: bool, hasSeparators: bool): (r: NumberLoop)
    requires 0 < i <= |input|
    ensures r.LoopDone? ==> i <= r.end <= |input|
    ensures r.LoopFailed? ==> !r.step.outcome.Ok? && r.step.next >= i
    ensures r.LoopFailed? ==> NumberFailure(r.step.outcome)
    decreases |input| - i
  {
    match NumberLoopTurn(input, i, simple, hasSeparators)
    case Next(j, simple', hasSeparators') => ScanNumberLoop(input, j, simple', hasSeparators')
    case Stop(result) => result
  }

  /** The value scanNumber gives a literal: separators are removed, a simple
      literal is read as a decimal integer, any other goes to the float parse. */
  function NumberValue(text: seq<int>, simple: bool, hasSeparators: bool): NumValue
  {
    var str := if hasSeparators then RemoveSeparators(text) else text;
    if simple then Int(DecimalValue(str)) else ParsedFloat(str)
  }

  /** scanNumber(start) entered with the scanner at position cur: cur == start
      for a leading digit, cur == start + 1 for a period followed by a digit. */
  function ScanNumber(input: seq<Byte>, start: int, cur: int): (r: Step)
    requires 0 <= start <= cur < |input| && IsDigit(input[cur])
    requires cur == start || (cur == start + 1 && input[start] == Period)
    ensures r.outcome.Ok? ==> r.outcome.token.index == start && cur < r.outcome.token.end == r.next <= |input|
    ensures r.outcome.Ok? ==> r.outcome.token.kind == Number
    ensures r.outcome.Ok? || NumberFailure(r.outcome)
    ensures r.next > cur
  {
    match ScanNumberLoop(input, cur + 1, cur == start, false)
    case LoopFailed(step) => step
    case LoopDone(e, simple, hasSeparators) =>
      var text := input[start..e];
      Step(Ok(NewNumberToken(start, e, NumberValue(text, simple, hasSeparators))), e)
  }

  /** The escape after a backslash, read at position j (the byte after the
      backslash): its code and the position after it, or the way it fails. */
  datatype Escape = Decoded(code: int, next: int) | EscapeFailed(step: Step)

  function ScanEscape(input: seq<Byte>, j: int): (e: Escape)
    requires 0 < j <= |input|
    ensures e.Decoded? ==> j < e.next <= |input| + 1
    ensures e.EscapeFailed? ==> !e.step.outcome.Ok? && e.step.next == j
    ensures e.EscapeFailed? ==> StringFailure(e.step.outcome) && e.step.outcome != Err(UnterminatedQuote)
  {
    if PeekAt(input, j) == LowerU then
      if j + 5 > |input| then EscapeFailed(Step(Panic, j))
      else
        var hex := input[j + 1..j + 5];
        if forall k :: 0 <= k < |hex| ==> IsLowerHex(hex[k]) then Decoded(HexValue(hex), j + 5)
        else EscapeFailed(Step(Err(InvalidUnicodeEscape(hex)), j))
    else Decoded(Unescape(PeekAt(input, j)), j + 1)
  }

  /** What scanString's buffer is built from: a run of bytes copied from the
      input, or an escape's code, which goes in as its UTF-8 bytes. */
  datatype Piece = Raw(bytes: seq<int>) | Rune(code: int)

  /** The bytes of a buffer built from pieces, in order. */
  function Render(pieces: seq<Piece>): (r: seq<int>)
    ensures pieces == [] ==> r == []
  {
    if pieces == [] then []
    else
      var last := pieces[|pieces| - 1];
      Render(pieces[..|pieces| - 1]) + (if last.Raw? then last.bytes else EncodeRune(last.code))
  }

  /** Appending a piece appends its bytes. */
  lemma RenderAppend(pieces: seq<Piece>, piece: Piece)
    ensures Render(pieces + [piece]) ==
            Render(pieces) + (if piece.Raw? then piece.bytes else EncodeRune(piece.code))
  {
    assert (pieces + [piece])[..|pieces|] == pieces;
  }

  /** The loop of scanString: q is the quote, i the scanner index, marker the
      start of the raw run not yet copied, buffer the pieces of the decoded
      text so far. */
  function ScanStringLoop(input: seq<Byte>, s: int, q: int, i: int, marker: int, buffer: seq<Piece>): (r: Step)
    requires 0 <= s < i <= |input| + 1 && s < marker <= i
    requires q != Eof
    ensures r.outcome.Ok? ==> r.outcome.token.index == s && i < r.outcome.token.end == r.next <= |input|
    ensures r.outcome.Ok? ==> r.outcome.token.kind == String
    ensures r.outcome.Ok? || StringFailure(r.outcome)
    ensures r.next >= i
    decreases |input| + 1 - i
  {
    var p := PeekAt(input, i);
    if p == q then Step(Ok(NewStringToken(s, i + 1, Render(buffer + [Raw(input[marker..i])]))), i + 1)
    else if p == Backslash then
      var copied := buffer + [Raw(input[marker..i])];
      match ScanEscape(input, i + 1)
      case Decoded(code, next) => ScanStringLoop(input, s, q, next, next, copied + [Rune(code)])
      case EscapeFailed(step) => step
    else if p == Eof then Step(Err(UnterminatedQuote), i)
    else ScanStringLoop(input, s, q, i + 1, marker, buffer)
  }

  /** The backslash turn of the string loop when the escape decodes: the
      loop goes on after it with the raw run and the escape's bytes copied. */
  lemma EscapeTurnDecoded(input: seq<Byte>, s: int, q: int, i: int, marker: int, buffer: seq<Piece>)
    requires 0 <= s < i < |input| && s < marker <= i
    requires q != Eof && q != Backslash && input[i] == Backslash
    requires ScanEscape(input, i + 1).Decoded?
    ensures var esc := ScanEscape(input, i + 1);
            ScanStringLoop(input, s, q, i, marker, buffer) ==
            ScanStringLoop(input, s, q, esc.next, esc.next, buffer + [Raw(input[marker..i])] + [Rune(esc.code)])
  {
  }

  /** The backslash turn of the string loop when the escape fails: the loop
      stops with the escape's failure. */
  lemma EscapeTurnFailed(input: seq<Byte>, s: int, q: int, i: int, marker: int, buffer: seq<Piece>)
    requires 0 <= s < i < |input| && s < marker <= i
    requires q != Eof && q != Backslash && input[i] == Backslash
    requires ScanEscape(input, i + 1).EscapeFailed?
    ensures ScanStringLoop(input, s, q, i, marker, buffer) == ScanEscape(input, i + 1).step
  {
  }

  /** Any other byte before the closing quote: the loop goes on after it. */
  lemma PlainTurn(input: seq<Byte>, s: int, q: int, i: int, marker: int, buffer: seq<Piece>)
    requires 0 <= s < i <= |input| && s < marker <= i
    requires q != Eof
    requires var p := PeekAt(input, i); p != q && p != Backslash && p != Eof
    ensures ScanStringLoop(input, s, q, i, marker, buffer) == ScanStringLoop(input, s, q, i + 1, marker, buffer)
  {
  }

  /** The closing quote: the token holds the buffer's bytes and the raw run. */
  lemma QuoteTurn(input: seq<Byte>, s: int, q: int, i: int, marker: int, buffer: seq<Piece>)
    requires 0 <= s < i <= |input| && s < marker <= i
    requires q != Eof && PeekAt(input, i) == q
    ensures ScanStringLoop(input, s, q, i, marker, buffer) ==
            Step(Ok(NewStringToken(s, i + 1, Render(buffer) + input[marker..i])), i + 1)
  {
    RenderAppend(buffer, Raw(input[marker..i]));
  }

  /** The end of the input, or a NUL, before the closing quote: the loop
      stops with UnterminatedQuote where it stands. */
  lemma EofTurn(input: seq<Byte>, s: int, q: int, i: int, marker: int, buffer: seq<Piece>)
    requires 0 <= s < i <= |input| + 1 && s < marker <= i
    requires q != Eof && PeekAt(input, i) == Eof
    ensures ScanStringLoop(input, s, q, i, marker, buffer) == Step(Err(UnterminatedQuote), i)
  {
  }

  /** scanString at position s (the opening quote). */
  function ScanString(input: seq<Byte>, s: int): (r: Step)
    requires 0 <= s < |input| && input[s] != Eof
    ensures r.outcome.Ok? ==> r.outcome.token.index == s < r.outcome.token.end == r.next <= |input|
    ensures r.outcome.Ok? ==> r.outcome.token.kind == String
    ensures r.outcome.Ok? || StringFailure(r.outcome)
    ensures r.next > s
  {
    ScanStringLoop(input, s, input[s], s + 1, s + 1, [])
  }

  /** scanQuestion: `?`, `??` or `?.`. */
  function ScanQuestion(input: seq<Byte>, s: int): (r: Step)
    requires 0 <= s < |input|
    ensures r.outcome.Ok? && r.outcome.token.index == s < r.outcome.token.end == r.next <= |input|
  {
    var p := PeekAt(input, s + 1);
    if p == Question || p == Period then Step(Ok(NewOperatorToken(s, s + 2, [Question, p])), s + 2)
    else Step(Ok(NewOperatorToken(s, s + 1, [Question])), s + 1)
  }

  /** scanComplexOperator: `one`, extended by `two` when the next byte is twoCode. */
  function ScanComplexOperator(input: seq<Byte>, s: int, one: seq<int>, twoCode: int, two: seq<int>): (r: Step)
    requires 0 <= s < |input| && twoCode != Eof
    ensures r.outcome.Ok? && r.outcome.token.index == s < r.outcome.token.end == r.next <= |input|
  {
    if PeekAt(input, s + 1) == twoCode then Step(Ok(NewOperatorToken(s, s + 2, one + two)), s + 2)
    else Step(Ok(NewOperatorToken(s, s + 1, one)), s + 1)
  }

  /** scanComplexOperatorThree: `one`, then optionally `two`, then optionally `three`. */
  function ScanComplexOperatorThree(input: seq<Byte>, s: int, one: seq<int>, twoCode: int, two: seq<int>,
                                    threeCode: int, three: seq<int>): (r: Step)
    requires 0 <= s < |input| && twoCode != Eof && threeCode != Eof
    ensures r.outcome.Ok? && r.outcome.token.index == s < r.outcome.token.end == r.next <= |input|
  {
    var matchedTwo := PeekAt(input, s + 1) == twoCode;
    var j := if matchedTwo then s + 2 else s + 1;
    var str := if matchedTwo then one + two else one;
    if PeekAt(input, j) == threeCode then Step(Ok(NewOperatorToken(s, j + 1, str + three)), j + 1)
    else Step(Ok(NewOperatorToken(s, j, str)), j)
  }

  predicate IsSingleCharacter(c: int) {
    c in {LeftParen, RightParen, LeftBrace, RightBrace, LeftBracket, RightBracket, Comma, Colon, Semicolon}
  }

  predicate IsSingleOperator(c: int) {
    c in {Plus, Minus, Star, Slash, Percent, Caret}
  }

  /** What every scanning routine promises of a token it returns: it starts
      at or after lo, inside the input, its span is non-empty, the scanner
      is left at its end, and it is never an Error token. */
  predicate TokenAfter(input: seq<Byte>, r: Step, lo: int) {
    r.outcome.Ok? ==>
      var t := r.outcome.token;
      0 <= t.index && lo <= t.index < t.end == r.next <= |input| && t.kind != Error
  }

  /** scanToken: skip blanks from the scanner index i, then dispatch on the lookahead. */
  function ScanToken(input: seq<Byte>, i: int): (r: Step)
    requires i >= -1
    ensures TokenAfter(input, r, i)
    ensures r.next > i
    decreases Ahead(input, i), 1
  {
    var s := SkipBlank(input, i);
    if s >= |input| then Step(Err(EndOfInput), s)
    else Dispatch(input, s)
  }

  /** The dispatch of scanToken on the lookahead input[s], a byte above Space. */
  function Dispatch(input: seq<Byte>, s: int): (r: Step)
    requires 0 <= s < |input|
    ensures TokenAfter(input, r, s)
    ensures r.next > s
    decreases Ahead(input, s), 0
  {
    var c := input[s];
    if IsIdentifierStart(c) then ScanIdentifier(input, s)
    else if IsDigit(c) then ScanNumber(input, s, s)
    else if c == Period then
      if IsDigit(PeekAt(input, s + 1)) then ScanNumber(input, s, s + 1)
      else Step(Ok(NewCharacterToken(s, s + 1, Period)), s + 1)
    else if IsSingleCharacter(c) then Step(Ok(NewCharacterToken(s, s + 1, c)), s + 1)
    else if c == SingleQuote || c == DoubleQuote then ScanString(input, s)
    else if c == Hash then ScanPrivateIdentifier(input, s)
    else if IsSingleOperator(c) then Step(Ok(NewOperatorToken(s, s + 1, [c])), s + 1)
    else if c == Question then ScanQuestion(input, s)
    else if c == LessThan || c == GreaterThan then ScanComplexOperator(input, s, [c], Equals, [Equals])
    else if c == Bang || c == Equals then ScanComplexOperatorThree(input, s, [c], Equals, [Equals], Equals, [Equals])
    else if c == Ampersand then ScanComplexOperator(input, s, [Ampersand], Ampersand, [Ampersand])
    else if c == Bar then ScanComplexOperator(input, s, [Bar], Bar, [Bar])
    else if c == NonBreakingSpace then ScanToken(input, SkipWhitespace(input, s))
    else Step(Err(UnexpectedCharacter(c)), s + 1)
  }

  /** The result of Tokenize: the token list, or the runtime failure that
      aborted it. */
  datatype TokenizeResult = Tokens(tokens: seq<Token>) | Crashed

  /** Tokenize's loop once `acc` has been collected and the scanner is at i. */
  function TokensFrom(input: seq<Byte>, i: int, acc: seq<Token>): TokenizeResult
    requires i >= -1
    decreases Ahead(input, i)
  {
    var step := ScanToken(input, i);
    match step.outcome
    case Ok(t) => TokensFrom(input, step.next, acc + [t])
    case Err(_) => Tokens(acc)
    case Panic => Crashed
  }

  /** Tokenize: the tokens scanToken yields before its first error. */
  function Tokenize(input: seq<Byte>): TokenizeResult {
    TokensFrom(input, -1, [])
  }

  /** The first NUL byte of the input, or its length. */
  function FirstNul(input: seq<Byte>): (n: nat)
    ensures n <= |input|
    ensures forall k :: 0 <= k < n ==> input[k] != 0
    ensures n < |input| ==> input[n] == 0
  {
    if input == [] || input[0] == 0 then 0 else 1 + FirstNul(input[1..])
  }

  /** IsIdentifier as written: the start test looks at the lookahead before
      the first advance, which is always Eof and never an identifier start,
      and the loop then rejects at the first identifier-part byte before the
      first NUL. */
  predicate IsIdentifierAsWritten(text: seq<Byte>) {
    |text| > 0 && !IsIdentifierStart(Eof) &&
    forall j :: 0 <= j < FirstNul(text) ==> !IsIdentifierPart(text[j])
  }
}
