# ng-template-parser core in Dafny

ng-template-parser is a Go reimplementation of parts of Angular's template compiler. This project models two of its parts and proves properties of those models:

1. **The expression lexer** (`ep/lexer.go` with the character classes of `chars/chars.go`).
   - It is a byte-level scanner with an `index` and a one-byte lookahead `peek`.
   - `scanToken` skips every byte up to the space and then dispatches on the lookahead.
   - It yields identifiers and keywords, numbers, strings, private identifiers, single-character tokens and operators. Each token has a half-open span `[index, end)`.
   - `Tokenize` collects tokens until the first error. The end of input counts as an error.
2. **The template walker** (`walk` and `parse` in `main.go`, repeated in `parser.go`).
   - It reads HTML tokens through a cursor and builds a tree of text, comment, bound-text and element nodes.
   - It classifies each attribute by the first one or two characters of its key: reference, event output, input binding, two-way binding or plain attribute.
   - It splits interpolation text at braces.
   - It collects an element's children until the next end tag.
   - Its child loop reads each child's token twice, and the tokenizer hands out a token's data only once (see Findings).

Layout:

| file | module | contents |
|---|---|---|
| `chars.dfy` | `Chars` | the character-code constants and class predicates of `chars/chars.go` |
| `tokens.dfy` | `Tokens` | the token record, its constructors and predicates, and the keyword table |
| `runes.dfy` | `Runes` | Go's `string(rune)`: the UTF-8 bytes of a code point |
| `lexer_spec.dfy` | `LexerSpec` | every scanning routine as a function of `(input, position)`, giving an outcome and the index the scanner stops at |
| `scanner.dfy` | `Lexer` | the `Scanner` class with the mutable `index`/`peek`, its methods, and `Tokenize` and `IsIdentifier` |
| `lexer_props.dfy` | `LexerProperties` | reference definitions of each token kind, the string-escape decoding, the number-literal facts, span ordering, and the `IsIdentifier` finding |
| `lexer_errors.dfy` | `LexerErrors` | where the number and string loops stop, and which error `scanToken` gives, for every input |
| `lexer_examples.dfy` | `LexerExamples` | concrete inputs, including the quirks |
| `template_ast.dfy` | `TemplateAst` | the node types of `main.go` / `parser.go` |
| `markup.dfy` | `Markup` | the HTML tokenizer as a token sequence behind a cursor, with its one-time read of a token's data |
| `text_split.dfy` | `TextSplit` | `strings.Split`, `strings.Join`, `strings.Contains` |
| `bindings.dfy` | `Bindings` | attribute classification |
| `brace_split.dfy` | `BraceSplit` | interpolation splitting |
| `walker_spec.dfy` | `WalkerSpec` | `walk`/`parse` as functions of the token sequence and a position: reading each token once, and with the child loop as written |
| `walker.dfy` | `Walker` | the `walk`/`parse` loops over the tokenizer, proved against `WalkerSpec` |
| `walker_props.dfy` | `WalkerProperties` | `parse` of a well-nested token sequence, and `parser.go` against `main.go` |
| `main_template.dfy` / `peg_template.dfy` | `MainTemplate` / `PegTemplate` | the two programs' `parse` |
| `template_examples.dfy` | `TemplateExamples` | concrete templates |

Modelling decisions:

- **Input.** The lexer's input is a sequence of byte values (0..255), because the source indexes bytes. The end-of-input lookahead is `Eof = 0`.
- **Scanner outcomes.** Each scanning routine has an outcome: `Ok(token)`, `Err(error)` for the source's `error` returns, or `Panic`. `Panic` is an index out of range in Go, which aborts the program:
  - `101_` reads the byte after the separator;
  - `\u` has fewer than four bytes after it.
- **HTML tokenizer.** `Next` moves to the next token and returns its kind. `Token()` returns the current token in full on its first call after `Next`, and only its kind (`Blank`) on every later call, as `golang.org/x/net/html` does.
- **Walker outcomes.** `walk` and `parse` are generic in how an interpolation's expression text becomes an expression, a parameter `mk`:
  - `main.go` uses `ReadProperty`, a `PropertyRead` of the text;
  - `parser.go` uses `ParsePegExpression`, an uninterpreted parameter `parsePeg`.

  Their results have four cases. `Walked`/`Ran`/`Parsed` is normal completion. `Crash` is an attribute whose indexing panics. `Hang` is a loop that spins for ever on a token `walk` does not consume: an end of input inside an element, a stray end tag, or another token kind.
- **Behaviour kept as written**, each shown by a lemma:
  - `_101` is an identifier (`LeadingUnderscore`), and `101_` aborts (`TrailingSeparatorFails`).
  - A lone `&` or `|` is an operator (`LoneAmpersandAndBar`).
  - A backtick does not open a string, even though `IsQuote` accepts it (`BacktickIsUnexpected`).
  - `#a` is an error, while `#1` is a private identifier (`HashFollowers`).
  - `\u` accepts only lower-case hex digits (`UpperCaseUnicodeEscape`).
  - Every escape's code goes into a string's value as its UTF-8 bytes: `\u00e9` gives C3 A9 (`TwoByteEscape`), and a backslash before a byte of 128 or more gives two bytes for it (`EscapedHighByte`).
  - A plain attribute stores its value as the name and its key as the value (`PlainKeySwapped`).
  - A reference has an empty name (`ReferenceAndPlainAttribute`).
  - The byte after every brace is skipped, and the text after the last `}` is dropped (`HelloName`, `SingleBraces`).
  - Any end tag closes the innermost element, whatever its name (`EndTagNamesIgnored`).
  - `IsIdentifier` is inverted (see Findings).
  - The child loop hands walk every child after an element's first as its kind alone, so those children lose their text, name and attributes (see Findings).

## Model

| member | source | states |
|---|---|---|
| `Chars.ClassInclusions` | chars/chars.go:74-101 | An octal digit is a digit, and a digit is a hex digit. A newline is whitespace. Whitespace is at most the space or is the non-breaking space. A quote is neither whitespace, a letter nor a digit. The end-of-input code 0 is at most the space, so the skip loop passes it, but it is not whitespace. |
| `Chars.IsWhitespace` | chars/chars.go:74-76 | Tab through space, or the non-breaking space. A definition, with no contract of its own; `ClassInclusions` states how it nests with the other classes. |
| `Chars.IsDigit` | chars/chars.go:78-80 | `0` through `9`. A definition, with no contract of its own; `ClassInclusions` relates it to the hex and octal digits. |
| `Chars.IsAsciiLetter` | chars/chars.go:82-84 | `a` through `z` or `A` through `Z`. A definition, with no contract of its own; `ClassInclusions` keeps it apart from whitespace and quotes. |
| `Chars.IsAsciiHexDigit` | chars/chars.go:86-88 | `a`-`f`, `A`-`F` or a digit. A definition, with no contract of its own; `ClassInclusions` states that every digit is one. |
| `Chars.IsNewLine` | chars/chars.go:90-92 | Line feed or carriage return. A definition, with no contract of its own; `ClassInclusions` states that a newline is whitespace. |
| `Chars.IsOctalDigit` | chars/chars.go:94-96 | `0` through `7`. A definition, with no contract of its own; `ClassInclusions` states that an octal digit is a digit. |
| `Chars.IsQuote` | chars/chars.go:98-100 | Single quote, double quote or backtick. A definition, with no contract of its own; `ClassInclusions` states that a quote is neither whitespace, a letter nor a digit. |
| `Tokens.Contains` | ep/lexer.go:29-36 | The linear table search finds a text exactly when the text is in the table. |
| `Tokens.ConstructorsMatchPredicates` | ep/lexer.go:63-187 | Each constructor builds a token its kind predicate accepts. A character token's text is its one code. `let` is the keyword `let` and not `as`. An identifier token is not an error. |
| `Tokens.Token.IsCharacter` | ep/lexer.go:63-65 | A Character token whose number value is the given code. A definition; `ConstructorsMatchPredicates` ties it to its constructor. |
| `Tokens.Token.IsNumber` | ep/lexer.go:67-69 | A Number token. A definition; `ConstructorsMatchPredicates` ties it to its constructor. |
| `Tokens.Token.IsString` | ep/lexer.go:71-73 | A String token. A definition; `ConstructorsMatchPredicates` ties it to its constructor. |
| `Tokens.Token.IsOperator` | ep/lexer.go:75-77 | An Operator token whose text is the given operator. A definition; `ConstructorsMatchPredicates` ties it to its constructor. |
| `Tokens.Token.IsIdentifier` | ep/lexer.go:79-81 | An Identifier token. A definition; `ConstructorsMatchPredicates` ties it to its constructor. |
| `Tokens.Token.IsPrivateIdentifier` | ep/lexer.go:83-85 | A PrivateIdentifier token. A definition; `ConstructorsMatchPredicates` ties it to its constructor. |
| `Tokens.Token.IsKeyword` | ep/lexer.go:87-89 | A Keyword token. A definition; `ConstructorsMatchPredicates` ties it to its constructor. |
| `Tokens.Token.IsKeywordLet` | ep/lexer.go:91-93 | The keyword `let`. A definition; `ConstructorsMatchPredicates` ties it to its constructor. |
| `Tokens.Token.IsKeywordAs` | ep/lexer.go:95-97 | The keyword `as`. A definition; `ConstructorsMatchPredicates` ties it to its constructor. |
| `Tokens.Token.IsKeywordNull` | ep/lexer.go:99-101 | The keyword `null`. A definition; `ConstructorsMatchPredicates` ties it to its constructor. |
| `Tokens.Token.IsKeywordUndefined` | ep/lexer.go:103-105 | The keyword `undefined`. A definition; `ConstructorsMatchPredicates` ties it to its constructor. |
| `Tokens.Token.IsKeywordTrue` | ep/lexer.go:107-109 | The keyword `true`. A definition; `ConstructorsMatchPredicates` ties it to its constructor. |
| `Tokens.Token.IsKeywordFalse` | ep/lexer.go:111-113 | The keyword `false`. A definition; `ConstructorsMatchPredicates` ties it to its constructor. |
| `Tokens.Token.IsKeywordThis` | ep/lexer.go:115-117 | The keyword `this`. A definition; `ConstructorsMatchPredicates` ties it to its constructor. |
| `Tokens.Token.IsError` | ep/lexer.go:119-121 | An Error token. A definition; `ConstructorsMatchPredicates` ties it to its constructor. |
| `Tokens.NewCharacterToken` | ep/lexer.go:155-163 | A Character token with the code as its number value and as its one-code text. A definition; `ConstructorsMatchPredicates` states its kind predicate holds, and `WellFormedToken` describes the scanned tokens built with it. |
| `Tokens.NewIdentifierToken` | ep/lexer.go:165-167 | An Identifier token with the text. A definition; `ConstructorsMatchPredicates` states its kind predicate holds, and `WellFormedToken` describes the scanned tokens built with it. |
| `Tokens.NewPrivateIdentifierToken` | ep/lexer.go:169-171 | A PrivateIdentifier token with the text. A definition; `ConstructorsMatchPredicates` states its kind predicate holds, and `WellFormedToken` describes the scanned tokens built with it. |
| `Tokens.NewKeywordToken` | ep/lexer.go:173-175 | A Keyword token with the text. A definition; `ConstructorsMatchPredicates` states its kind predicate holds, and `WellFormedToken` describes the scanned tokens built with it. |
| `Tokens.NewOperatorToken` | ep/lexer.go:177-179 | An Operator token with the text. A definition; `ConstructorsMatchPredicates` states its kind predicate holds, and `WellFormedToken` describes the scanned tokens built with it. |
| `Tokens.NewStringToken` | ep/lexer.go:181-183 | A String token with the decoded text. A definition; `ConstructorsMatchPredicates` states its kind predicate holds, and `WellFormedToken` describes the scanned tokens built with it. |
| `Tokens.NewNumberToken` | ep/lexer.go:185-187 | A Number token with the value and an empty text. A definition; `ConstructorsMatchPredicates` states its kind predicate holds, and `WellFormedToken` describes the scanned tokens built with it. |
| `Runes.EncodeRune` | ep/lexer.go:479 | `string(rune(code))` has one to four bytes, and exactly one for a code below 0x80, which is then the code itself. A surrogate or a code outside the Unicode range gives the replacement bytes EF BF BD. |
| `Runes.EncodeRuneRoundTrip` | ep/lexer.go:479 | Every byte is below 256. A valid code point comes back from its bytes, which are a lead byte of the right length followed by continuation bytes. |
| `Runes.SplitSix` | ep/lexer.go:479 | A code is its high part times 64 plus its low six bits, the split each UTF-8 continuation byte takes. |
| `Runes.Low6` | ep/lexer.go:479 | The low six bits of a code, below 64, as a continuation byte carries them. |
| `Runes.High` | ep/lexer.go:479 | The code shifted right by six bits, never above the code. |
| `LexerSpec.PeekAt` | ep/lexer.go:208-216 | The lookahead is a byte. It is `Eof` exactly outside the input or on a NUL byte. |
| `LexerSpec.IsIdentifierStart` | ep/lexer.go:515-518 | The bytes that start an identifier: ASCII letters, `_` and `$`. A definition, with no contract of its own. |
| `LexerSpec.IsIdentifierPart` | ep/lexer.go:542-544 | The bytes that continue an identifier: ASCII letters, digits, `_` and `$`. A definition, with no contract of its own. |
| `LexerSpec.IsExponentStart` | ep/lexer.go:546-548 | `e` or `E`. A definition, with no contract of its own; `NumberOutcome` states when an exponent start leads to InvalidExponent. |
| `LexerSpec.IsExponentSign` | ep/lexer.go:550-552 | `-` or `+`. A definition, with no contract of its own; `NumberOutcome` states that a sign after the exponent start needs a digit next. |
| `LexerSpec.Unescape` | ep/lexer.go:554-569 | Only the escaped letters `n f r t v` change, each to a control character below the space. Every other byte stands for itself. |
| `LexerSpec.HexDigitValue` | ep/lexer.go:460-466 | A lower-case hex digit has a value below 16. |
| `LexerSpec.HexValue` | ep/lexer.go:460-466 | The base-16 value of the four lower-case hex bytes of a `\u` escape, most significant first. A definition, with no contract of its own; `UnicodeEscape` and `TwoByteEscape` pin it on examples, and `Decode` uses it. |
| `LexerSpec.DecimalValue` | ep/lexer.go:571-579 | The base-10 value of a digit string, most significant first, unbounded where `Atoi` would overflow. A definition, with no contract of its own; `DecimalValueNatural` bounds it and `SeparatedNumber` pins `101`. |
| `LexerSpec.RemoveSeparators` | ep/lexer.go:428-431 | The result has no `_` and only bytes of the text. |
| `LexerSpec.SkipBlank` | ep/lexer.go:224-237 | The blank skip stops at the first byte above the space, or past the end. Every byte passed is at most the space. It does not move when the lookahead is already above the space. |
| `LexerSpec.SkipIdentifierPart` | ep/lexer.go:363-365 | The loop stops at the first byte that is not an identifier part. Every byte passed is one. |
| `LexerSpec.SkipWhitespace` | ep/lexer.go:306-308 | The non-breaking-space loop stops at the first non-whitespace byte. Every byte passed is whitespace. |
| `LexerSpec.ScanIdentifier` | ep/lexer.go:360-373 | An identifier start always gives a token. It spans from the start to the scanner index, and the span is not empty. |
| `LexerSpec.ScanPrivateIdentifier` | ep/lexer.go:376-389 | On success the token spans from the `#` to the scanner index. The scanner always moves past the `#`. |
| `LexerSpec.NumberLoopTurn` | ep/lexer.go:396-426 | One turn of the number loop moves forward within the input, or stops where it is, or fails without a token. |
| `LexerSpec.ScanNumberLoop` | ep/lexer.go:396-426 | The number loop ends within the input, or fails without a token and without moving back. |
| `LexerSpec.ScanNumber` | ep/lexer.go:391-441 | On success the token is a Number from the start, which is the period of `.5`. It ends at the scanner index, past the first digit. |
| `LexerSpec.NumberValue` | ep/lexer.go:428-440 | The value of the literal text: separators removed when there are any, then the decimal value of a simple literal or the text a float parse is given. A definition, with no contract of its own; `ScanNumberFacts` states the value of every scanned number. |
| `LexerSpec.ScanEscape` | ep/lexer.go:453-480 | An escape is decoded and moves forward, or fails at the byte after the backslash. |
| `LexerSpec.Render` | ep/lexer.go:454-479 | The bytes of the string buffer: raw runs as they are and escape codes as their UTF-8 bytes. An empty buffer renders as no bytes. |
| `LexerSpec.RenderAppend` | ep/lexer.go:454-479 | Appending a raw run or an escape's code to the buffer appends its bytes, the code as its UTF-8 bytes. |
| `LexerSpec.EscapeTurnDecoded` | ep/lexer.go:453-480 | At a backslash whose escape decodes, the loop goes on after the escape, with the raw run and the escape's code appended and the marker moved there. |
| `LexerSpec.EscapeTurnFailed` | ep/lexer.go:459-469 | At a backslash whose escape fails, the loop ends with the escape's failure. |
| `LexerSpec.PlainTurn` | ep/lexer.go:483-485 | Any other byte before the closing quote: the loop goes on at the next byte with the same buffer and marker. |
| `LexerSpec.QuoteTurn` | ep/lexer.go:488-491 | At the closing quote the token holds the buffer followed by the raw run since the marker, and ends just after the quote. |
| `LexerSpec.EofTurn` | ep/lexer.go:481-482 | At the end of the input or a NUL before the closing quote, the loop stops where it stands with UnterminatedQuote. |
| `LexerSpec.ScanStringLoop` | ep/lexer.go:452-491 | On success the token is a String from the opening quote to just past the closing one. Otherwise the failure is UnterminatedQuote, InvalidUnicodeEscape or the read past the end. |
| `LexerSpec.ScanString` | ep/lexer.go:443-492 | On success the token is a String spanning from the opening quote to the scanner index. The scanner always moves. |
| `LexerSpec.ScanQuestion` | ep/lexer.go:494-507 | `?` always gives a one- or two-byte token from the start to the scanner index. |
| `LexerSpec.ScanComplexOperator` | ep/lexer.go:329-340 | The operator always succeeds and spans from the start to the scanner index. |
| `LexerSpec.ScanComplexOperatorThree` | ep/lexer.go:342-358 | The same, for one- to three-byte operators. |
| `LexerSpec.ScanToken` | ep/lexer.go:218-317 | A token lies inside the input at or after the scanner index and ends at the new index. The index always grows, which is the termination measure of `Tokenize`. |
| `LexerSpec.Dispatch` | ep/lexer.go:243-317 | The same, from a lookahead above the space. |
| `LexerSpec.IsSingleCharacter` | ep/lexer.go:263-265 | The brackets, braces, parentheses, comma, colon and semicolon, the bytes scanToken turns into a Character token. A definition, with no contract of its own; `DispatchRoutes` states where they lead. |
| `LexerSpec.IsSingleOperator` | ep/lexer.go:276-278 | `+ - * / % ^`, the bytes scanToken turns into a one-byte operator. A definition, with no contract of its own; `OperatorWellFormed` states the tokens they give. |
| `LexerSpec.FirstNul` | ep/lexer.go:532-537 | The position of the first NUL byte, or the length when there is none. |
| `LexerSpec.IsIdentifierAsWritten` | ep/lexer.go:520-540 | What `IsIdentifier` returns as written: the text is not empty and no byte before its first NUL is an identifier part. A definition, the as-written half of the first Findings row. |
| `LexerSpec.TokensFrom` | ep/lexer.go:41-53 | `Tokenize`'s loop from a scanner index, with the tokens collected so far. A definition, whose properties `TokensFromRun` and `TokenizeFacts` state. |
| `LexerSpec.Tokenize` | ep/lexer.go:41-53 | The tokens `scanToken` yields before its first error, or `Crashed` when a scan panics. A definition, whose properties `TokenizeFacts` states. |
| `Lexer.Scanner.constructor` | ep/lexer.go:202-206 | A new scanner stands before the first byte with lookahead `Eof`. |
| `Lexer.Scanner.Advance` | ep/lexer.go:208-216 | The index grows by one, and the lookahead is the byte there (`Eof` past the end). |
| `Lexer.Scanner.ScanToken` | ep/lexer.go:218-317 | Its outcome and new index are those of `LexerSpec.ScanToken` at the old index. |
| `Lexer.Scanner.SkipBlanks` | ep/lexer.go:224-237 | The blank-skipping loop leaves the index at `SkipBlank`. |
| `Lexer.Scanner.Dispatch` | ep/lexer.go:243-317 | The switch on the lookahead computes `LexerSpec.Dispatch`. |
| `Lexer.Scanner.ScanCharacter` | ep/lexer.go:319-322 | Advances one byte and returns the character token from the start to the new index. |
| `Lexer.Scanner.ScanOperator` | ep/lexer.go:324-327 | Advances one byte and returns the operator token for the given text. |
| `Lexer.Scanner.ScanComplexOperator` | ep/lexer.go:329-340 | Computes `LexerSpec.ScanComplexOperator`. |
| `Lexer.Scanner.ScanComplexOperatorThree` | ep/lexer.go:342-358 | Computes `LexerSpec.ScanComplexOperatorThree`. |
| `Lexer.Scanner.ScanIdentifier` | ep/lexer.go:360-373 | Computes `LexerSpec.ScanIdentifier`. |
| `Lexer.Scanner.ScanPrivateIdentifier` | ep/lexer.go:376-389 | Computes `LexerSpec.ScanPrivateIdentifier`. |
| `Lexer.Scanner.ScanNumber` | ep/lexer.go:391-441 | Its loop computes `LexerSpec.ScanNumber`. |
| `Lexer.Scanner.ScanNumberTurn` | ep/lexer.go:396-426 | One loop turn computes `NumberLoopTurn` and leaves the index where it says. |
| `Lexer.Scanner.ScanString` | ep/lexer.go:443-492 | Its loop, with the byte buffer and the marker, computes `LexerSpec.ScanString`. |
| `Lexer.Scanner.EscapeTurn` | ep/lexer.go:453-480 | The backslash branch: on failure it stops where the escape failed, with the loop's outcome. Otherwise the buffer is the raw run and the escape's UTF-8 bytes appended, and the loop from the new index gives what the loop from the backslash gives. |
| `Lexer.Scanner.PlainStep` | ep/lexer.go:483-485 | Any other byte: the index moves one byte, and the loop gives the same result from there. |
| `Lexer.Scanner.CloseString` | ep/lexer.go:488-491 | At the closing quote: the result, with the index just past the quote, is what the loop gives at the quote, the buffer followed by the raw run since the marker. |
| `Lexer.Scanner.ScanEscape` | ep/lexer.go:453-480 | The escape branch computes `LexerSpec.ScanEscape`. |
| `Lexer.Scanner.ScanQuestion` | ep/lexer.go:494-507 | Computes `LexerSpec.ScanQuestion`. |
| `Lexer.Tokenize` | ep/lexer.go:41-53 | The appending loop returns `LexerSpec.Tokenize`: the tokens scanned before the first error, or `Crashed` when a scan panics. |
| `Lexer.IsIdentifier` | ep/lexer.go:520-540 | Returns `IsIdentifierAsWritten`: the text is not empty and no byte before the first NUL is an identifier part. |
| `Lexer.IsIdentifierCorrected` | ep/lexer.go:520-540 | The corrected check: true exactly when the text is not empty, its first byte is an identifier start, and every later byte before the first NUL is an identifier part (`IsIdentifierIntended`). |
| `LexerProperties.DecodeRaw` | ep/lexer.go:452-488 | Bytes without a backslash decode to themselves. |
| `LexerProperties.Decode` | ep/lexer.go:443-492 | The reference decoding of a string body, written over the body's bytes rather than the scanner's loop. A backslash and the byte after it give the UTF-8 bytes of that byte's `Unescape`, and `\u` with four lower-case hex digits gives the UTF-8 bytes of their value. Every other byte is copied. A definition, which `StringLoopDecodes` ties to the scanner. |
| `LexerProperties.WellFormedToken` | ep/lexer.go:218-317 | The reference description of a token of each kind in terms of the bytes it spans. A definition, which `ScanTokenWellFormed` proves of every token. |
| `LexerProperties.EscapeDecodes` | ep/lexer.go:453-480 | The UTF-8 bytes of one escape the scanner decodes begin `Decode` from the backslash. |
| `LexerProperties.EscapeThenRest` | ep/lexer.go:453-480 | The raw run before a backslash, then the escape, then the rest decode like the whole. |
| `LexerProperties.Regroup` | ep/lexer.go:453-480 | Regrouping the four parts `EscapeThenRest` joins. |
| `LexerProperties.EscapeTurnDecodes` | ep/lexer.go:453-480 | An escape turn of the string loop keeps the loop's decoding invariant. |
| `LexerProperties.EscapeDecodedDecodes` | ep/lexer.go:453-478 | When the escape decodes, the loop at the backslash decodes the body if the loop after the escape does: the raw run, then the escape's UTF-8 bytes, then the rest. |
| `LexerProperties.PlainTurnDecodes` | ep/lexer.go:483-485 | A plain byte keeps the loop's decoding invariant. |
| `LexerProperties.QuoteTurnDecodes` | ep/lexer.go:488-491 | At the closing quote after a run without backslash, the value is the buffer followed by that run, which is its own decoding. |
| `LexerProperties.StringLoopDecodes` | ep/lexer.go:443-492 | A string token's value is `Decode` of the bytes between its quotes. An unescaped byte is copied. The escapes `n f r t v` give LF, FF, CR, TAB, VT. `\u` and four lower-case hex digits give the UTF-8 bytes of their value. A backslash before any other byte gives the UTF-8 bytes of that byte's code, two bytes from 128 up. |
| `LexerProperties.TurnKeepsFacts` | ep/lexer.go:396-426 | A number-loop turn keeps the literal's facts. A loop that stops normally stops on a non-digit. |
| `LexerProperties.NumberLoopKeepsFacts` | ep/lexer.go:396-426 | The whole number loop keeps those facts. |
| `LexerProperties.RemoveSeparatorsLeavesDigits` | ep/lexer.go:428-431 | Removing `_` from digits and separators leaves only digits. |
| `LexerProperties.RemoveSeparatorsNone` | ep/lexer.go:428-431 | A text without `_` is unchanged. |
| `LexerProperties.DecimalValueNatural` | ep/lexer.go:433-435 | The decimal value of digits is not negative. |
| `LexerProperties.NumberValueFacts` | ep/lexer.go:428-440 | These facts at the loop's end make a `NumberLiteral`. |
| `LexerProperties.NumberLiteral` | ep/lexer.go:391-441 | The reference description of a number's value: every `_` sits between digits, and the value is an integer exactly when the literal has only digits and `_`. That integer is the decimal value without the `_`, and any other literal's text goes to the float parse. A definition, which `ScanNumberFacts` proves of every number. |
| `LexerProperties.StartFacts` | ep/lexer.go:391-396 | The loop's facts hold of a literal's first digit, with its leading period. |
| `LexerProperties.ScanNumberFacts` | ep/lexer.go:391-441 | Every `_` in a number sits between two digits. The value is an integer exactly when the literal has only digits and `_`: the decimal value of the digits with `_` removed (`1_0_1` is 101). Otherwise the float parse gets the text without `_`. |
| `LexerProperties.ScanTokenWellFormed` | ep/lexer.go:218-317 | Every token `scanToken` yields is well formed for its kind. A number runs up to the stop of its literal. A string ends on the first byte its body stops on, the closing quote, and its value is the decoding of its body. Every byte skipped before the token is at most the space or is the non-breaking space. |
| `LexerProperties.DispatchWellFormed` | ep/lexer.go:243-317 | The same, from the dispatch. |
| `LexerProperties.SpaceWellFormed` | ep/lexer.go:303-311 | The same, after a non-breaking space. |
| `LexerProperties.QuoteWellFormed` | ep/lexer.go:267-270 | A string token from the dispatch ends just after the first byte its body stops on (`StringStop`), which is the closing quote. So its body holds no unescaped closing quote and no NUL outside an escape, and each `\u` escape in it has four lower-case hex digits. Its value is the decoding of its body. |
| `LexerProperties.WordWellFormed` | ep/lexer.go:244-274 | Identifiers, keywords, numbers, character tokens and private identifiers are well formed and start at the lookahead. An identifier is a keyword exactly when its text is one of the 10 in `KEYWORDS`. `.` followed by a digit starts a number, and otherwise it is a character. A number runs over every digit, period, separator between digits and well-formed exponent, up to the first other byte (`NumberEnd`). |
| `LexerProperties.ComplexOperatorSpan` | ep/lexer.go:329-340 | The operator's text is exactly the bytes it spans. |
| `LexerProperties.ComplexOperatorThreeSpan` | ep/lexer.go:342-358 | The same for `!`/`=` runs. |
| `LexerProperties.OperatorWellFormed` | ep/lexer.go:276-316 | Operators are well formed: the text is its span and one of `+ - * / % ^ < <= > >= ! != !== = == === & && \| \|\| ? ?? ?.`. |
| `LexerProperties.ComparisonWellFormed` | ep/lexer.go:285-302 | `< > ! = & \|` give operator tokens whose text is the span, and a lone `&` or `\|` is one of them. |
| `LexerProperties.ScannedFromOrdered` | ep/lexer.go:41-53 | Successive scans give tokens inside the input, in order and without overlap. |
| `LexerProperties.ScannedFromWellFormed` | ep/lexer.go:41-53 | Each of them is well formed. |
| `LexerProperties.TokensFromRun` | ep/lexer.go:41-53 | The loop's result extends what it has collected with successive successful scans, and the scan after them fails. |
| `LexerProperties.RunStep` | ep/lexer.go:41-53 | One successful scan in front of a run of successful scans is a run. |
| `LexerProperties.TokenizeFacts` | ep/lexer.go:41-53 | `Tokenize` returns exactly the tokens `scanToken` yields before its first error, whether the end of input or a lexical error. No error token is ever in the list. The tokens are in order, without overlap and well formed. |
| `LexerProperties.AsWrittenRejectsIdentifiers` | ep/lexer.go:520-540 | `IsIdentifier` as written rejects every text that is an identifier. |
| `LexerProperties.IntendedMatchesLexer` | ep/lexer.go:520-540 | For a text without NUL, the intended check holds exactly when `scanToken` reads the whole text as one identifier or keyword token. |
| `LexerProperties.FirstTokenFromStart` | ep/lexer.go:244-246 | From the start of a text beginning with an identifier start, `scanToken` is `scanIdentifier`. |
| `LexerProperties.NoIdentifierAtStart` | ep/lexer.go:218-317 | A text beginning with anything else gives no identifier or keyword at position 0. |
| `LexerProperties.SkipPartsToEnd` | ep/lexer.go:363-365 | The identifier loop runs to the end when every byte is a part. |
| `LexerProperties.IdentifierCoversText` | ep/lexer.go:360-373 | From an identifier start, `scanIdentifier` covers the whole text exactly when every later byte is an identifier part. |
| `LexerProperties.DispatchOtherKinds` | ep/lexer.go:247-316 | The dispatch on a byte that is not an identifier start gives no identifier or keyword at that byte. |
| `LexerErrors.NumberStop` | ep/lexer.go:396-426 | The number loop's stop: the first byte from its start that it does not pass over. Every byte before it is a digit, a period, a separator between digits, a well-formed exponent marker or its sign. |
| `LexerErrors.FirstDigit` | ep/lexer.go:247-258 | A literal's first digit is its first byte, or the byte after its leading period. |
| `LexerErrors.NumberEnd` | ep/lexer.go:391-426 | A literal's stop lies after its start and within the input. |
| `LexerErrors.NumberTurnPasses` | ep/lexer.go:396-426 | Each loop turn passes only bytes the loop accepts, and no turn starts on an exponent's sign. |
| `LexerErrors.NumberStopSkips` | ep/lexer.go:396-426 | Passing accepted bytes leaves the stop in place. |
| `LexerErrors.NumberLoopStops` | ep/lexer.go:396-426 | The loop ends at the stop. On `_` it gives InvalidNumericSeparator, or the read past the end when the `_` is the last byte and follows a digit. On `e` or `E` it gives InvalidExponent. On any other byte the literal ends there. |
| `LexerErrors.NumberOutcome` | ep/lexer.go:391-441 | `scanNumber` reads past the end exactly when its stop is a final separator. It gives InvalidNumericSeparator exactly on another `_` stop and InvalidExponent exactly on an exponent stop. Otherwise it gives a token ending at the stop. |
| `LexerErrors.StringStop` | ep/lexer.go:452-486 | The string loop's stop: the first unit of the body it does not pass over. That is the closing quote, the end of the input or a NUL, or a `\u` escape without four lower-case hex digits inside the input. |
| `LexerErrors.StringLoopStops` | ep/lexer.go:452-486 | The loop from any position ends at its stop (`StopsAs`). On the quote it gives a token ending after it. At the end it gives UnterminatedQuote. On `\u` it reads past the end, or gives InvalidUnicodeEscape with the four bytes. |
| `LexerErrors.EscapeUnitStops` | ep/lexer.go:453-480 | An escape the loop passes leaves where and how the loop ends unchanged. |
| `LexerErrors.PlainUnitStops` | ep/lexer.go:483-485 | So does a plain byte. |
| `LexerErrors.EscapeUnitDecodes` | ep/lexer.go:459-477 | The escape of a unit the loop passes decodes, and ends with the unit. |
| `LexerErrors.StringStopTurn` | ep/lexer.go:452-482 | At its stop the loop ends right there, as `StopsAs` says. |
| `LexerErrors.StopUnit` | ep/lexer.go:452-469 | A body stops only on the closing quote, at the end or a NUL, or on a `\u` escape. At such an escape, if the four bytes fit, they are not all lower-case hex. |
| `LexerErrors.StringStopsHere` | ep/lexer.go:443-492 | `scanString` ends at the stop of its body, as `StopsAs` says, and the stop byte is the quote, the end or a backslash. |
| `LexerErrors.StringEndsOnQuote` | ep/lexer.go:443-492 | `scanString` gives a token exactly when its body stops on the closing quote, and the token then ends just after it. It gives UnterminatedQuote exactly when the body stops at the end or a NUL. |
| `LexerErrors.StringEndsOnEscape` | ep/lexer.go:459-469 | `scanString` reads past the end exactly when its body stops on a `\u` escape whose four bytes run past the end. It gives InvalidUnicodeEscape exactly when those bytes fit, carrying them, and they are not all lower-case hex. |
| `LexerErrors.StringOutcome` | ep/lexer.go:443-492 | All of these outcomes of `scanString` together. |
| `LexerErrors.TokenStart` | ep/lexer.go:218-311 | Where `scanToken` dispatches after skipping blanks and runs of non-breaking spaces: past the end, or on a byte above the space that is not the non-breaking space. |
| `LexerErrors.ScanTokenAtStart` | ep/lexer.go:218-311 | `scanToken` gives EndOfInput when that start is past the end, and otherwise what the dispatch gives there. |
| `LexerErrors.DispatchRoutes` | ep/lexer.go:243-316 | A literal start goes to `scanNumber`, a quote to `scanString`, and `#` to `scanPrivateIdentifier`. A byte the switch does not handle gives UnexpectedCharacter with that byte and the index after it. Every other handled byte gives a token. |
| `LexerErrors.DispatchUnexpected` | ep/lexer.go:243-316 | The dispatch never gives EndOfInput. It gives UnexpectedCharacter exactly on a byte it does not handle, and InvalidHashCharacter exactly on `#` followed by an identifier start. |
| `LexerErrors.DispatchNumberErrors` | ep/lexer.go:247-258 | The dispatch gives the number errors exactly where the literal at the byte stops on them. |
| `LexerErrors.DispatchStringErrors` | ep/lexer.go:267-270 | The dispatch gives the string errors exactly where the string at the byte stops on them. |
| `LexerErrors.DispatchPanics` | ep/lexer.go:243-316 | The dispatch reads past the end exactly at a literal's final separator, or at a string's `\u` escape whose four bytes run past the end. |
| `LexerErrors.EndOrUnexpected` | ep/lexer.go:218-316 | `scanToken` gives EndOfInput exactly when the input runs out before a token start. It gives UnexpectedCharacter exactly when the start holds a byte the switch does not handle, and then names that byte and moves past it. |
| `LexerErrors.HashError` | ep/lexer.go:376-381 | `scanToken` gives InvalidHashCharacter exactly when the token start is `#` followed by an identifier start. |
| `LexerErrors.NumberErrors` | ep/lexer.go:396-426 | `scanToken` gives InvalidNumericSeparator exactly when a literal at the start stops on a `_` that is not final. It gives InvalidExponent exactly when the literal stops on an exponent marker. |
| `LexerErrors.StringErrors` | ep/lexer.go:452-486 | `scanToken` gives UnterminatedQuote exactly when a string at the start stops at the end or a NUL. It gives InvalidUnicodeEscape exactly when the string stops on a `\u` escape whose four bytes fit. |
| `LexerErrors.PanicCases` | ep/lexer.go:405-460 | `scanToken` aborts the program exactly when a literal at the start stops on a final separator, or a string there stops on a `\u` escape whose four bytes run past the end. |
| `LexerExamples.SeparatedNumber` | ep/lexer.go:399-408 | `1_0_1` is the single number token 101. |
| `LexerExamples.TrailingSeparatorFails` | ep/lexer.go:405 | `101_` reads past the end and aborts. |
| `LexerExamples.DoubleSeparator` | ep/lexer.go:405-407 | `1__0` is an invalid numeric separator. |
| `LexerExamples.LeadingUnderscore` | ep/lexer.go:244-246 | `_101` is an identifier. |
| `LexerExamples.Exponents` | ep/lexer.go:411-420 | `1e+5` is a number for the float parse, and `1e` is an invalid exponent. |
| `LexerExamples.Periods` | ep/lexer.go:254-262 | `.5` is a number and `.a` starts with a period character. |
| `LexerExamples.UnicodeEscape` | ep/lexer.go:459-466 | `'\u0041'` is the string with the single byte 65. |
| `LexerExamples.RenderOneRune` | ep/lexer.go:454-479 | A buffer holding one escape's code and two empty raw runs renders as that code's UTF-8 bytes. |
| `LexerExamples.OneEscapeString` | ep/lexer.go:443-492 | A quoted string that is one six-byte escape holds that escape's UTF-8 bytes. |
| `LexerExamples.TwoByteEscape` | ep/lexer.go:459-479 | `'\u00e9'` is the string with the two bytes C3 A9. |
| `LexerExamples.EscapedHighByte` | ep/lexer.go:474-479 | A backslash before the first byte of `é` gives C3 83, then A9 is copied. |
| `LexerExamples.EscapedHighByteBody` | ep/lexer.go:474-479 | The string loop over the body of that example. |
| `LexerExamples.UpperCaseUnicodeEscape` | ep/lexer.go:461-468 | `'\u00AF'` is an invalid unicode escape. |
| `LexerExamples.ShortUnicodeEscapeFails` | ep/lexer.go:460 | `'\u12` aborts. |
| `LexerExamples.UnterminatedString` | ep/lexer.go:481-482 | `'ab` is an unterminated quote. |
| `LexerExamples.LoneAmpersandAndBar` | ep/lexer.go:294-302 | A lone `&` or `\|` is an operator. |
| `LexerExamples.BacktickIsUnexpected` | ep/lexer.go:267-316 | A backtick is an unexpected character, and `Tokenize` then gives no tokens. |
| `LexerExamples.HashFollowers` | ep/lexer.go:376-389 | `#a` is an invalid character, and `#1` is a private identifier. |
| `LexerExamples.BlankInput` | ep/lexer.go:224-241 | Spaces, tabs, NUL and newlines give no tokens. |
| `LexerExamples.LetIsKeyword` | ep/lexer.go:360-373 | `let` is a keyword token. |
| `LexerExamples.IsIdentifierInverted` | ep/lexer.go:520-540 | As written, `IsIdentifier` rejects `abc123` and accepts `+-`. |
| `Markup.At` | main.go:138-140 | The tokenizer reports the end of input outside the token sequence. |
| `Markup.Tokenizer.constructor` | main.go:119 | A new tokenizer stands before its first token. |
| `Markup.Blank` | main.go:293-295 | A token's blank keeps its kind, with empty text, name and attributes. |
| `Markup.Tokenizer.Next` | main.go:290 | `Next` moves the cursor one token (never past the end), marks it unread and returns its kind. |
| `Markup.Tokenizer.Token` | main.go:293-295 | The first call after `Next` returns the current token in full, and every later call only its blank. The cursor does not move. |
| `TextSplit.Split` | main.go:228 | `strings.Split` gives one more piece than there are separators. No piece holds the separator. There is more than one piece exactly when the text holds the separator. |
| `TextSplit.JoinSplit` | main.go:228 | Joining the pieces of a split gives the text back. |
| `TextSplit.JoinHead` | main.go:228 | Joining commutes with a first character. |
| `TextSplit.SplitAtFirst` | main.go:228-229 | The split of `a.b`, with no `.` in `a`, is `a` followed by the split of `b`. |
| `TextSplit.SplitWhole` | main.go:228 | A text without the separator is one piece. |
| `TextSplit.SplitJoin` | main.go:228 | Pieces without the separator come back from splitting their join. |
| `Bindings.Classify` | main.go:201-287 | A key's first one or two characters select the binding. `#` gives a reference and nothing else does. A key without `#`, `(` or `[` first gives a text attribute, and only such a key does. An event comes only from a `(` key whose value has a `(`. Only a `[` key whose second character is not `(` gives an input; `[class]`, `[style]` and `[attr]` without a dot panic instead (`BarePrefixPanics`, `ClassifyPanics`). A `[(` key with at least 4 characters gives a two-way binding, and only such a key does. An empty key panics. |
| `Bindings.TypeOfPrefix` | main.go:228-242 | The binding type an input's first dot segment selects: `class`, `style`, `attr`, or Property for anything else. A definition. |
| `Bindings.ReadOf` | main.go:248-266 | An input's value: the property read of the attribute value, with that value as its source. A definition, with no contract of its own; `PropertyKey` and `PrefixedKey` state it as the value of the inputs they give. |
| `Bindings.Add` | main.go:201-284 | One binding appended to the back of its own list of the element: references, outputs, inputs (an input and an output for a two-way binding) or attributes. A definition, with no contract of its own; `AddAfterConcat` and `ClassifyAllAppend` state the order it keeps. |
| `Bindings.ClassifyAll` | main.go:201-288 | The attribute loop as a function: the four lists filled in attribute order, or None when an attribute panics. A definition, which `ClassifyAllSucceeds` and `ClassifyAllAppend` characterise. |
| `Bindings.RefKey` | main.go:203-204 | A key starting with `#` gives a reference with an empty name whose value is the attribute's value, whatever follows the `#`. |
| `Bindings.ClassifyPanics` | main.go:201-288 | An attribute panics exactly when its key is empty, or an output key has one character, or its value has no `(` or nothing between its first `(` and the next. It also panics exactly when an input key has one character, or a two-way key fewer than four. So does an input whose name has no dot and is `class`, `style` or `attr`. |
| `Bindings.CollectBindings` | main.go:201-288 | The attribute loop appends to the four lists what `ClassifyAll` says, in attribute order, or panics. |
| `Bindings.PanicPropagates` | main.go:201-288 | One panicking attribute makes the whole element panic. |
| `Bindings.ClassifyAllSucceeds` | main.go:201-288 | The loop succeeds exactly when every attribute classifies. |
| `Bindings.ClassifyAllAppend` | main.go:201-288 | The lists of `a + b` are the lists of `a` followed by those of `b`, so every list keeps attribute order. |
| `Bindings.AddAfterConcat` | main.go:201-288 | Appending a binding after a concatenation appends it to the back part. |
| `Bindings.EventKey` | main.go:207-222 | `(n)="h(a)"` gives one event named `n`. Its handler is the method call `h` with the single argument `PropertyRead a`, and its source is the raw value. |
| `Bindings.EventWithoutCallPanics` | main.go:210-213 | An output whose value has no `(` panics. |
| `Bindings.PropertyKey` | main.go:225-253 | `[n]` whose first dot segment is not `class`, `style` or `attr` is a Property input named by the whole of `n`, dots included (`[foo.bar]` is named `foo.bar`). Its value is `PropertyRead` of the raw value, with that value as the source. |
| `Bindings.PrefixIsWord` | main.go:232-242 | `class`, `style` and `attr` are plain words. |
| `Bindings.PrefixedKey` | main.go:225-253 | `[class.x]`, `[style.x]` and `[attr.x]` give a Class, Style or Attribute input named by the second dot segment of the key, the part of `x` before its first dot. So `[class.a.b]` is named `a`. |
| `Bindings.PrefixedInput` | main.go:225-253 | A `[` key, not `[(`, whose first dot segment is a binding-type prefix and which has a second segment gives an input of that type named by the second segment. |
| `Bindings.BarePrefixPanics` | main.go:244-245 | `[class]`, `[style]` and `[attr]` index a missing second segment and panic. |
| `Bindings.TwoWayKey` | main.go:256-277 | `[(x)]="v"` gives exactly one Property input `x` reading `v`. It also gives one event `xChange` whose handler writes `$event` to `v`, with source `v=$event`. |
| `Bindings.PlainKeySwapped` | main.go:278-283 | A plain attribute stores its value as the name and its key as the value. |
| `BraceSplit.Drop` | main.go:167 | The length of the text after its first `n` characters. |
| `BraceSplit.SplitFrom` | main.go:167-181 | No literal or expression segment holds a brace. |
| `BraceSplit.SplitText` | main.go:167-181 | The split of a whole text, starting with an empty buffer. A definition, which `RenderSplits` inverts. |
| `BraceSplit.InterpolationOf` | main.go:162-186 | A text's interpolation: its literal segments, and its expression segments given to the maker. A definition, which `Interpolate` computes. |
| `BraceSplit.MapSeq` | parser.go:217 | Each expression segment is mapped by the expression maker, in order. |
| `BraceSplit.Interpolate` | main.go:163-186 | The splitting loop, with `buff` and the skip after each brace, computes `InterpolationOf`. |
| `BraceSplit.PrefixedAssoc` | main.go:167-181 | Segments found in two stretches of text combine in order. |
| `BraceSplit.SplitTurn` | main.go:168-180 | One loop turn: `{` closes a literal, `}` closes an expression, and each skips the next character. Any other character is buffered. |
| `BraceSplit.DropStep` | main.go:167-179 | Moving the loop index one or two characters drops them from the text ahead. |
| `BraceSplit.RawRun` | main.go:178-180 | A stretch without braces only grows the buffer. |
| `BraceSplit.RenderSplits` | main.go:162-186 | A text made of literals and `{{expression}}` parts, then a tail, splits into exactly those literals and expressions. The tail after the last `}}` is dropped. |
| `BraceSplit.RenderContainsBraces` | main.go:162 | Such a text contains `{{` exactly when it has a part, so it becomes bound text exactly then. |
| `WalkerSpec.WalkAt` | main.go:155-304 | `walk` returns nil without moving (`Stuck`) exactly on a token that is not text, a comment or a start tag. A node it builds ends after the token and within the sequence. Otherwise a start tag gives `Crash` (an attribute panics) or `Hang` (its child loop spins), and neither moves. |
| `WalkerSpec.ChildrenFrom` | main.go:290-296 | The child loop, reading each child's token once, ends on an end tag of any name. |
| `WalkerSpec.ParseFrom` | main.go:137-150 | The parse loop ends at the end of input. |
| `WalkerSpec.TextNodeOf` | main.go:157-188 | A text token's node: bound text when the text holds `{{`, plain text otherwise. A definition. |
| `WalkerSpec.Parse` | main.go:133-153 | `parse` with the corrected child loop: the root of the nodes, or the program hangs or panics. A definition, which `ParseBalanced` characterises. |
| `WalkerSpec.RereadWalkAt` | main.go:155-304 | `walk` as written, handed the current token or its blank: it returns nil without moving (`Stuck`) exactly when that token is not text, a comment or a start tag. A node it builds ends after the token and within the sequence. Otherwise a start tag gives `Crash` or `Hang`, and neither moves. |
| `WalkerSpec.RereadChildrenFrom` | main.go:290-296 | The child loop as written, which hands `walk` the blank of every child after the first, ends on an end tag. |
| `WalkerSpec.RereadParseFrom` | main.go:137-150 | The parse loop over that `walk` ends at the end of input. |
| `WalkerSpec.RereadParse` | main.go:133-153 | `parse` with the child loop as written. A definition, which `ParseAsWritten` computes. |
| `Walker.Walk` | main.go:155-304 | Handed the current token, read in full, the method computes `WalkAt` and leaves the cursor after the node, unread. |
| `Walker.WalkChildren` | main.go:290-296 | The child loop, corrected to read each token once, collects in token order the children `ChildrenFrom` says, and stops on the end tag. |
| `Walker.Parse` | main.go:133-153 | The parse loop computes `WalkerSpec.Parse`, with the corrected child loop. |
| `Walker.ParseTurn` | main.go:137-150 | One turn of the parse loop: the new node joins the collected ones and the loop goes on after it. |
| `Walker.ChildTurn` | main.go:292-296 | One turn of the corrected child loop: the new child joins the collected ones and the loop goes on after it. |
| `Walker.WalkAsWritten` | main.go:155-304 | Handed the token its caller read, in full or as its blank, the method computes `RereadWalkAt` with that token and leaves the cursor after the node, unread. |
| `Walker.WalkChildrenAsWritten` | main.go:290-296 | The child loop as written reads each child's token, walks it, and reads the next token again for its kind. It collects in order the children `RereadChildrenFrom` says, so every child after the first is built from a blank. |
| `Walker.RereadChildTurn` | main.go:292-296 | One turn of that loop: the new child joins the collected ones, and the next turn's read is a second one. |
| `Walker.ParseAsWritten` | main.go:133-153 | The parse loop over the walk as written computes `WalkerSpec.RereadParse`. |
| `Walker.RereadParseTurn` | main.go:137-150 | One turn of the parse loop over the walk as written, as `ParseTurn`. |
| `MainTemplate.Parse` | main.go:133-153 | `parse` of `main.go` with the corrected child loop, and with an interpolation's expression as a `PropertyRead`. |
| `MainTemplate.ReadProperty` | main.go:175 | The expression of an interpolation is a `PropertyRead` naming the text between the braces. A definition, with no contract of its own; it is the maker `MainTemplate.Parse` passes to the walk. |
| `PegTemplate.Parse` | parser.go:176-196 | `parse` of `parser.go` with the corrected child loop, and with each expression given to the PEG parser. |
| `PegTemplate.SameTreeAsMain` | parser.go:198-346 | `parser.go` builds the tree of `main.go`, with each interpolation's `PropertyRead` replaced by the PEG parse of its name. It hangs and panics on the same inputs. |
| `WalkerProperties.HoldsSplit` | main.go:290-296 | A token run that holds in two halves holds each half at its place. |
| `WalkerProperties.TreeStarts` | main.go:158-197 | A tree is written starting with text, a comment or a start tag. |
| `WalkerProperties.WalkTree` | main.go:155-304 | `walk` with the corrected child loop, at the tokens of a well-formed tree, builds that tree's node and moves past all its tokens. |
| `WalkerProperties.ChildrenStep` | main.go:292-296 | One child loop turn over a tree. |
| `WalkerProperties.ParseStep` | main.go:137-150 | One parse loop turn over a tree. |
| `WalkerProperties.FirstTree` | main.go:292-296 | The tokens of a forest are its first tree's tokens followed by the rest's. |
| `WalkerProperties.ChildrenTrees` | main.go:290-298 | The corrected child loop collects children written as a forest and closed by an end tag as that forest's nodes, in order. |
| `WalkerProperties.ParseTrees` | main.go:137-150 | With the corrected child loop, a forest followed by the end of input parses to its nodes. |
| `WalkerProperties.ParseBalanced` | main.go:133-153 | With the corrected child loop, `parse` of any well-nested template without panicking attributes neither hangs nor panics. Its root holds the trees' nodes in order. |
| `WalkerProperties.BlankWalk` | main.go:155-197 | `walk` handed a blank token builds an empty text, an empty comment, or an element with an empty name and no attributes or bindings. |
| `WalkerProperties.RereadBlanksLaterChildren` | main.go:290-296 | In the child loop as written, every child after an element's first is such a blank node. |
| `WalkerProperties.TextNodeMaps` | parser.go:201-231 | A text node made with one maker is the one made with another, mapped. |
| `WalkerProperties.WalkAtMaps` | parser.go:198-346 | The same for `walk`. |
| `WalkerProperties.ChildrenFromMaps` | parser.go:332-338 | The same for the child loop. |
| `WalkerProperties.ParseFromMaps` | parser.go:180-193 | The same for the parse loop. |
| `WalkerProperties.ParseMaps` | parser.go:176-196 | The same for `parse`. |
| `TemplateExamples.HelloName` | main.go:167-181 | `Hello {{name}}!` gives the literal `Hello ` and the expression `name`, and `!` is dropped. |
| `TemplateExamples.SingleBraces` | main.go:168-177 | `a{b}c` gives the literal `a` and the empty expression. |
| `TemplateExamples.HelloNameNode` | main.go:162-186 | The bound text node for `Hello {{name}}!`, with the whole text as its source. |
| `TemplateExamples.HelloHasBraces` | main.go:162 | `Hello {{name}}!` holds `{{`, so it becomes bound text. |
| `TemplateExamples.InterpolatedText` | main.go:133-189 | A text token with `{{` parses to one bound text node. |
| `TemplateExamples.UnclosedElementHangs` | main.go:292-296 | An element never closed makes the child loop spin on the end of input. |
| `TemplateExamples.StrayEndTagHangs` | main.go:137-150 | A stray end tag at the top level makes `parse` spin. |
| `TemplateExamples.EndTagNamesIgnored` | main.go:292 | `<a><b></a></b>` nests `b` inside `a`. |
| `TemplateExamples.BareClassPanics` | main.go:244-245 | `[class]="x"` panics. |
| `TemplateExamples.BareClassCrashes` | main.go:197-201 | An element with that attribute makes `parse` panic. |
| `TemplateExamples.ReferenceAndPlainAttribute` | main.go:201-283 | `#box="ngModel" id="main"` gives a reference with an empty name and value `ngModel`, and the text attribute named `main` with value `id`. |
| `TemplateExamples.RereadLosesComment` | main.go:290-296 | For `<div>a<!--c--></div>`, reading each token once gives the children `a` and the comment `c`. The loop as written gives the comment an empty text. |

## Left out

- `main`, `templateParse`, file reading and writing, JSON output and the timing code (`main.go:112-131`, `parser.go:143-174`). They are I/O around `parse`.
- The `log.Fatalf` on a tokenizer error other than end of input (`main.go:146`, `parser.go:189`). The token model has no such error.
- The internals of the `golang.org/x/net/html` tokenizer, which is a foreign library. It is a token sequence behind a cursor, with the one-time read of a token's data. Doctype and self-closing tags fold into `OtherToken`.
- Template text is `string` (Dafny characters), while the source indexes its bytes. Every character the walker tests (`{`, `}`, `#`, `(`, `[`, `.`) is ASCII, so this matters only for multi-byte characters.
- `ParsePegExpression` (`parser.go:133-141`) and the SimplePEG engine it calls are the parameter `parsePeg`. `GetNgParserGrammar` and its `number`/`string` leaf rules (`parser.go:348-442`) are not modelled, because they are input to that engine.
- `parseFloat` (`ep/lexer.go:581-590`): a non-simple number's value is `ParsedFloat(text)`, the text it would parse.
- `parseIntAutoRadix` (`ep/lexer.go:571-579`): a simple number's value is the unbounded decimal value of its digits, without `Atoi`'s overflow.
- The unicode-escape branch (`ep/lexer.go:460-466`) checks `[0-9a-f]` directly instead of using a regular expression and `math/big`.
- `Token.toString`, `toNumber`, `newErrorToken` and `scanner.error` (`ep/lexer.go:123-153`, `189-191`, `509-513`) are never called by the lexer. The error texts are the `LexError` cases rather than strings.
- `ep/ast.go` is entirely commented out, and `js_ngc_demo/index.mjs` is a JavaScript benchmark. Neither is part of this model.
- `Walker.Walk`, `Walker.WalkChildren`, `Walker.Parse`, `Walker.WalkAsWritten`, `Walker.WalkChildrenAsWritten`, `Walker.ParseAsWritten`, `MainTemplate.Parse`, `PegTemplate.Parse`: these require that the loops do not spin for ever (`!Hangs`), because a Dafny method must terminate. Spinning is stated of the specification functions instead (`UnclosedElementHangs`, `StrayEndTagHangs`).
- `Walker.WalkChildren`, `Walker.Walk`, `Walker.Parse`, `MainTemplate.Parse`, `PegTemplate.Parse`: these run the child loop corrected to read each token once (`main.go:293-295`, `parser.go:335-337`). The loop as written, with its second read, is run by `WalkAsWritten`, `WalkChildrenAsWritten` and `ParseAsWritten`, which compute the specification functions `RereadWalkAt`, `RereadChildrenFrom` and `RereadParse` (see Findings).

## Findings

| source | as written | input that shows it | evidently intended | confidence | as-written member | corrected member |
|---|---|---|---|---|---|---|
| ep/lexer.go:527-535 | The start test reads the scanner's initial lookahead, which is always 0, so it never rejects. The loop then returns false at the first identifier-part byte. | `IsIdentifier("abc123")` is false and `IsIdentifier("+-")` is true | true exactly for a non-empty text whose first byte is an identifier start and whose other bytes are identifier parts | not executed | `Lexer.IsIdentifier`, `LexerProperties.AsWrittenRejectsIdentifiers`, `LexerExamples.IsIdentifierInverted` | `Lexer.IsIdentifierCorrected`, `LexerProperties.IntendedMatchesLexer` |
| main.go:293-295 | The child loop reads the current token with `Token()` to hand it to `walk`, and after `walk` reads the next token with `Token()` for its kind. The tokenizer hands out a token's text, name and attributes only on the first read after `Next`, so every child after an element's first reaches `walk` as its kind alone. `parser.go:335-337` is the same. | `<div>a<!--c--></div>` gives the comment an empty text instead of `c` | each child built from its own text, name and attributes | not executed | `Walker.WalkChildrenAsWritten`, `WalkerSpec.RereadChildrenFrom`, `WalkerProperties.RereadBlanksLaterChildren`, `TemplateExamples.RereadLosesComment` | `Walker.WalkChildren`, `WalkerProperties.ParseBalanced` |
