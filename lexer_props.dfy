/** What the expression lexer promises, proved of the functions in LexerSpec
    (and so, through the Scanner's contracts, of the scanner itself). */
module LexerProperties {
  import opened Chars
  import opened Tokens
  import opened Runes
  import opened LexerSpec
  import opened LexerErrors

  // ---------------------------------------------------------------------
  // Reference definitions

  /** A byte the lexer may pass over between tokens: anything up to Space
      (NUL and the control codes included) and the non-breaking space. */
  predicate IsSkippable(code: int) {
    code <= Space || code == NonBreakingSpace
  }

  /** The operator texts the lexer can produce: the single operators
      + - * / % ^ < > ! = & | ?, the doubles <= >= != == && || ?? ?. and the
      triples !== ===. */
  predicate IsOperatorText(t: seq<int>) {
    (|t| == 1 &&
     t[0] in {Plus, Minus, Star, Slash, Percent, Caret, LessThan, GreaterThan, Bang, Equals, Ampersand, Bar, Question}) ||
    (|t| == 2 &&
     ((t[0] in {LessThan, GreaterThan, Bang, Equals} && t[1] == Equals) ||
      (t[0] in {Ampersand, Bar} && t[1] == t[0]) ||
      (t[0] == Question && t[1] in {Question, Period}))) ||
    (|t| == 3 && t[0] in {Bang, Equals} && t[1] == Equals && t[2] == Equals)
  }

  /** The escape decoding of a string body, read front to back: a backslash,
      `u` and four lower-case hex digits stand for the UTF-8 bytes of their
      base-16 value; a backslash and any other byte for the UTF-8 bytes of
      that byte unescaped (two bytes for a byte from 0x80 up); any other
      byte for itself. */
  function Decode(body: seq<int>): seq<int>
    decreases |body|
  {
    if body == [] then []
    else if body[0] == Backslash && |body| >= 2 then
      if body[1] == LowerU && |body| >= 6 && forall k :: 2 <= k < 6 ==> IsLowerHex(body[k]) then
        var hex := body[2..6];
        assert forall k :: 0 <= k < |hex| ==> IsLowerHex(hex[k]) by {
          forall k | 0 <= k < |hex| ensures IsLowerHex(hex[k]) {
            assert hex[k] == body[k + 2];
          }
        }
        EncodeRune(HexValue(hex)) + Decode(body[6..])
      else EncodeRune(Unescape(body[1])) + Decode(body[2..])
    else [body[0]] + Decode(body[1..])
  }

  /** An identifier or keyword token starts with an identifier-start byte,
      continues with identifier-part bytes up to the first byte that is not
      one, and its text is its span; it is a keyword exactly when that text
      is in the keyword table. */
  predicate IdentifierToken(input: seq<Byte>, t: Token)
    requires 0 <= t.index < t.end <= |input|
  {
    (t.kind == Identifier || t.kind == Keyword) &&
    IsIdentifierStart(input[t.index]) &&
    (forall k :: t.index < k < t.end ==> IsIdentifierPart(input[k])) &&
    !IsIdentifierPart(PeekAt(input, t.end)) &&
    t.strValue == input[t.index..t.end] &&
    (t.kind == Keyword <==> input[t.index..t.end] in Keywords)
  }

  /** A private identifier is `#`, not followed by an identifier start, and
      the identifier-part bytes after it; its text is its span. */
  predicate PrivateIdentifierToken(input: seq<Byte>, t: Token)
    requires 0 <= t.index < t.end <= |input|
  {
    t.kind == PrivateIdentifier &&
    input[t.index] == Hash && !IsIdentifierStart(PeekAt(input, t.index + 1)) &&
    (forall k :: t.index < k < t.end ==> IsIdentifierPart(input[k])) &&
    !IsIdentifierPart(PeekAt(input, t.end)) &&
    t.strValue == input[t.index..t.end]
  }

  /** An operator's text is its span, and one of the operator texts. */
  predicate OperatorToken(input: seq<Byte>, t: Token)
    requires 0 <= t.index < t.end <= |input|
  {
    t.kind == Operator && t.strValue == input[t.index..t.end] && IsOperatorText(t.strValue)
  }

  /** A character token is one punctuation byte, or a period not followed by a digit. */
  predicate CharacterToken(input: seq<Byte>, t: Token)
    requires 0 <= t.index < t.end <= |input|
  {
    t.kind == Character &&
    t.end == t.index + 1 && t.strValue == [input[t.index]] && t.numValue == Int(input[t.index]) &&
    (IsSingleCharacter(input[t.index]) ||
     (input[t.index] == Period && !IsDigit(PeekAt(input, t.index + 1))))
  }

  /** A number starts with a digit, or with a period followed by a digit,
      and runs over every digit, period, separator between digits and
      well-formed exponent after that, up to the first other byte. */
  predicate NumberToken(input: seq<Byte>, t: Token)
    requires 0 <= t.index < t.end <= |input|
  {
    t.kind == Number && StartsNumber(input, t.index) && t.end == NumberEnd(input, t.index)
  }

  /** A string spans from a single or double quote to the same quote, which
      is where its body first stops (so the body holds no unescaped closing
      quote and no NUL outside an escape, and each of its `\u` escapes has
      four lower-case hex digits), and its value is the decoding of the
      bytes between them. */
  predicate StringToken(input: seq<Byte>, t: Token)
    requires 0 <= t.index < t.end <= |input|
  {
    t.kind == String &&
    (input[t.index] == SingleQuote || input[t.index] == DoubleQuote) &&
    t.index + 2 <= t.end && input[t.end - 1] == input[t.index] &&
    t.end - 1 == StringStop(input, input[t.index], t.index + 1) &&
    t.strValue == Decode(input[t.index + 1..t.end - 1])
  }

  /** What a token of each kind is, in terms of the bytes it spans. */
  predicate WellFormedToken(input: seq<Byte>, t: Token) {
    0 <= t.index < t.end <= |input| &&
    (IdentifierToken(input, t) || PrivateIdentifierToken(input, t) || OperatorToken(input, t) ||
     CharacterToken(input, t) || NumberToken(input, t) || StringToken(input, t))
  }

  // ---------------------------------------------------------------------
  // Strings

  /** Bytes without a backslash decode to themselves, in front of anything. */
  lemma {:induction false} DecodeRaw(raw: seq<int>, rest: seq<int>)
    requires Backslash !in raw
    ensures Decode(raw + rest) == raw + Decode(rest)
    decreases |raw|
  {
    if raw != [] {
      assert (raw + rest)[1..] == raw[1..] + rest;
      DecodeRaw(raw[1..], rest);
    } else {
      assert raw + rest == rest;
    }
  }

  /** A decoded escape's bytes begin the body's decoding from the backslash. */
  lemma EscapeDecodes(input: seq<Byte>, i: int, last: int)
    requires 0 <= i < |input| && input[i] == Backslash
    requires ScanEscape(input, i + 1).Decoded? && ScanEscape(input, i + 1).next <= last <= |input|
    ensures var esc := ScanEscape(input, i + 1);
            Decode(input[i..last]) == EncodeRune(esc.code) + Decode(input[esc.next..last])
  {
    var esc := ScanEscape(input, i + 1);
    var body := input[i..last];
    assert body[0] == Backslash && |body| >= 2;
    assert body[1] == PeekAt(input, i + 1);
    if PeekAt(input, i + 1) == LowerU {
      assert esc.next == i + 6;
      var hex := input[i + 2..i + 6];
      assert forall k :: 2 <= k < 6 ==> body[k] == hex[k - 2];
      assert body[2..6] == hex;
      assert body[6..] == input[esc.next..last];
    } else {
      assert body[2..] == input[esc.next..last];
    }
  }

  /** Decoding from the marker across an escape: the raw run, the escape's
      bytes, then the decoding after the escape. */
  lemma EscapeThenRest(input: seq<Byte>, marker: int, i: int, last: int, buffer: seq<int>)
    requires 0 <= marker <= i < |input| && input[i] == Backslash
    requires forall k :: marker <= k < i ==> input[k] != Backslash
    requires ScanEscape(input, i + 1).Decoded? && ScanEscape(input, i + 1).next <= last <= |input|
    ensures var esc := ScanEscape(input, i + 1);
            buffer + input[marker..i] + EncodeRune(esc.code) + Decode(input[esc.next..last]) ==
            buffer + Decode(input[marker..last])
  {
    var esc := ScanEscape(input, i + 1);
    var raw, bytes, rest := input[marker..i], EncodeRune(esc.code), Decode(input[esc.next..last]);
    EscapeDecodes(input, i, last);
    DecodeRaw(raw, input[i..last]);
    assert input[marker..last] == raw + input[i..last];
    assert Decode(input[marker..last]) == raw + (bytes + rest);
    Regroup(buffer, raw, bytes, rest);
  }

  /** Concatenation regrouped to the right. */
  lemma Regroup(a: seq<int>, b: seq<int>, c: seq<int>, d: seq<int>)
    ensures a + b + c + d == a + (b + (c + d))
  {
  }

  /** What the string loop at i promises when it yields a token: the token
      ends just after a closing quote q and its value is buffer followed by
      the decoding of the body from marker up to that quote. */
  predicate LoopDecodes(input: seq<Byte>, s: int, q: int, i: int, marker: int, buffer: seq<Piece>)
    requires 0 <= s < i <= |input| + 1 && s < marker <= i
    requires q != Eof
  {
    var r := ScanStringLoop(input, s, q, i, marker, buffer);
    r.outcome.Ok? ==>
      var e := r.outcome.token.end;
      i < e && input[e - 1] == q &&
      r.outcome.token.strValue == Render(buffer) + Decode(input[marker..e - 1])
  }

  /** The backslash turn of the string loop when the escape decodes: the
      loop at the backslash gives what the loop after the escape gives, and
      the escape's rune sits between the raw run and the rest. */
  lemma EscapeDecodedDecodes(input: seq<Byte>, s: int, q: int, i: int, marker: int, buffer: seq<Piece>)
    requires 0 <= s < i < |input| && s < marker <= i
    requires q != Eof && q != Backslash && input[i] == Backslash
    requires forall k :: marker <= k < i ==> input[k] != Backslash
    requires ScanEscape(input, i + 1).Decoded?
    requires var esc := ScanEscape(input, i + 1);
             LoopDecodes(input, s, q, esc.next, esc.next, buffer + [Raw(input[marker..i])] + [Rune(esc.code)])
    ensures LoopDecodes(input, s, q, i, marker, buffer)
  {
    var esc := ScanEscape(input, i + 1);
    var after := buffer + [Raw(input[marker..i])] + [Rune(esc.code)];
    EscapeTurnDecoded(input, s, q, i, marker, buffer);
    var r := ScanStringLoop(input, s, q, esc.next, esc.next, after);
    if r.outcome.Ok? {
      var e := r.outcome.token.end;
      RenderAppend(buffer, Raw(input[marker..i]));
      RenderAppend(buffer + [Raw(input[marker..i])], Rune(esc.code));
      assert Render(after) == Render(buffer) + input[marker..i] + EncodeRune(esc.code);
      EscapeThenRest(input, marker, i, e - 1, Render(buffer));
    }
  }

  /** The backslash turn of the string loop: if the loop after the escape
      decodes, so does the loop at the backslash. */
  lemma EscapeTurnDecodes(input: seq<Byte>, s: int, q: int, i: int, marker: int, buffer: seq<Piece>)
    requires 0 <= s < i < |input| && s < marker <= i
    requires q != Eof && q != Backslash && input[i] == Backslash
    requires forall k :: marker <= k < i ==> input[k] != Backslash
    requires var esc := ScanEscape(input, i + 1);
             esc.Decoded? ==> LoopDecodes(input, s, q, esc.next, esc.next, buffer + [Raw(input[marker..i])] + [Rune(esc.code)])
    ensures LoopDecodes(input, s, q, i, marker, buffer)
  {
    if ScanEscape(input, i + 1).Decoded? {
      EscapeDecodedDecodes(input, s, q, i, marker, buffer);
    } else {
      EscapeTurnFailed(input, s, q, i, marker, buffer);
    }
  }

  /** The string loop builds exactly the decoding of the body up to the
      closing quote, which is the byte before the token's end. */
  lemma {:induction false} StringLoopDecodes(input: seq<Byte>, s: int, q: int, i: int, marker: int, buffer: seq<Piece>)
    requires 0 <= s < i <= |input| + 1 && s < marker <= i
    requires q != Eof && q != Backslash
    requires forall k :: marker <= k < i && k < |input| ==> input[k] != Backslash
    ensures LoopDecodes(input, s, q, i, marker, buffer)
    decreases |input| + 1 - i
  {
    var p := PeekAt(input, i);
    if p == q {
      QuoteTurnDecodes(input, s, q, i, marker, buffer);
    } else if p == Backslash {
      var esc := ScanEscape(input, i + 1);
      if esc.Decoded? {
        StringLoopDecodes(input, s, q, esc.next, esc.next, buffer + [Raw(input[marker..i])] + [Rune(esc.code)]);
      }
      EscapeTurnDecodes(input, s, q, i, marker, buffer);
    } else if p != Eof {
      StringLoopDecodes(input, s, q, i + 1, marker, buffer);
      PlainTurnDecodes(input, s, q, i, marker, buffer);
    }
  }

  /** Any other byte of the string loop: if the loop after it decodes, so
      does the loop at it. */
  lemma PlainTurnDecodes(input: seq<Byte>, s: int, q: int, i: int, marker: int, buffer: seq<Piece>)
    requires 0 <= s < i <= |input| && s < marker <= i && q != Eof
    requires var p := PeekAt(input, i); p != q && p != Backslash && p != Eof
    requires LoopDecodes(input, s, q, i + 1, marker, buffer)
    ensures LoopDecodes(input, s, q, i, marker, buffer)
  {
    PlainTurn(input, s, q, i, marker, buffer);
  }

  /** The closing-quote turn of the string loop decodes the raw run. */
  lemma QuoteTurnDecodes(input: seq<Byte>, s: int, q: int, i: int, marker: int, buffer: seq<Piece>)
    requires 0 <= s < i <= |input| + 1 && s < marker <= i
    requires q != Eof && PeekAt(input, i) == q
    requires forall k :: marker <= k < i && k < |input| ==> input[k] != Backslash
    ensures LoopDecodes(input, s, q, i, marker, buffer)
  {
    DecodeRaw(input[marker..i], []);
    RenderAppend(buffer, Raw(input[marker..i]));
    assert input[marker..i] + [] == input[marker..i];
  }

  // ---------------------------------------------------------------------
  // Numbers

  /** The facts the number loop keeps about the bytes [start, i) it has passed. */
  predicate NumberFacts(input: seq<Byte>, start: int, i: int, simple: bool, hasSeparators: bool)
    requires 0 <= start < i <= |input|
  {
    (simple <==> forall k :: start <= k < i ==> IsDigit(input[k]) || input[k] == Underscore) &&
    (!hasSeparators ==> forall k :: start <= k < i ==> input[k] != Underscore) &&
    (forall k :: start <= k < i && input[k] == Underscore ==>
       start < k && IsDigit(input[k - 1]) && k + 1 < |input| && IsDigit(input[k + 1]))
  }

  /** One turn of the loop keeps the facts. */
  lemma TurnKeepsFacts(input: seq<Byte>, start: int, i: int, simple: bool, hasSeparators: bool)
    requires 0 <= start < i <= |input| && NumberFacts(input, start, i, simple, hasSeparators)
    ensures var t := NumberLoopTurn(input, i, simple, hasSeparators);
            t.Next? ==> NumberFacts(input, start, t.at, t.simple, t.hasSeparators)
    ensures var t := NumberLoopTurn(input, i, simple, hasSeparators);
            t.Stop? && t.result.LoopDone? ==> !IsDigit(PeekAt(input, i))
  {
    var t := NumberLoopTurn(input, i, simple, hasSeparators);
    if t.Next? && !IsDigit(input[i]) && input[i] != Underscore {
      assert !t.simple;
    }
  }

  lemma {:induction false} NumberLoopKeepsFacts(input: seq<Byte>, start: int, i: int, simple: bool, hasSeparators: bool)
    requires 0 <= start < i <= |input| && NumberFacts(input, start, i, simple, hasSeparators)
    ensures var r := ScanNumberLoop(input, i, simple, hasSeparators);
            r.LoopDone? ==> NumberFacts(input, start, r.end, r.simple, r.hasSeparators) &&
                            !IsDigit(PeekAt(input, r.end))
    decreases |input| - i
  {
    var t := NumberLoopTurn(input, i, simple, hasSeparators);
    TurnKeepsFacts(input, start, i, simple, hasSeparators);
    if t.Next? {
      NumberLoopKeepsFacts(input, start, t.at, t.simple, t.hasSeparators);
    }
  }

  /** Removing separators from digits-and-separators leaves only digits. */
  lemma {:induction false} RemoveSeparatorsLeavesDigits(text: seq<int>)
    requires forall k :: 0 <= k < |text| ==> IsDigit(text[k]) || text[k] == Underscore
    ensures forall k :: 0 <= k < |RemoveSeparators(text)| ==> IsDigit(RemoveSeparators(text)[k])
    decreases |text|
  {
    if text != [] {
      RemoveSeparatorsLeavesDigits(text[1..]);
    }
  }

  /** Text without separators is left as it is. */
  lemma {:induction false} RemoveSeparatorsNone(text: seq<int>)
    requires Underscore !in text
    ensures RemoveSeparators(text) == text
    decreases |text|
  {
    if text != [] {
      assert text == [text[0]] + text[1..];
      RemoveSeparatorsNone(text[1..]);
    }
  }

  /** The decimal value of digits is a natural number. */
  lemma {:induction false} DecimalValueNatural(digits: seq<int>)
    requires forall k :: 0 <= k < |digits| ==> IsDigit(digits[k])
    ensures DecimalValue(digits) >= 0
    decreases |digits|
  {
    if digits != [] {
      DecimalValueNatural(digits[..|digits| - 1]);
    }
  }

  /** A number literal from start to e with value v: every separator sits
      between two digits of the literal; the value is an integer exactly when
      the literal has only digits and separators, and then it is the decimal
      value of the digits with the separators removed; otherwise the float
      parse gets that same text. */
  predicate NumberLiteral(input: seq<Byte>, start: int, e: int, v: NumValue)
    requires 0 <= start <= e <= |input|
  {
    var text := input[start..e];
    (forall k :: start <= k < e && input[k] == Underscore ==>
       start < k && IsDigit(input[k - 1]) && k + 1 < e && IsDigit(input[k + 1])) &&
    (v.Int? <==> forall k :: start <= k < e ==> IsDigit(input[k]) || input[k] == Underscore) &&
    (v.Int? ==> v.n == DecimalValue(RemoveSeparators(text)) && v.n >= 0) &&
    (v.ParsedFloat? ==> v.text == RemoveSeparators(text))
  }

  /** What the loop's facts at its end say about the literal's value. */
  lemma NumberValueFacts(input: seq<Byte>, start: int, e: int, simple: bool, hasSeparators: bool)
    requires 0 <= start < e <= |input| && NumberFacts(input, start, e, simple, hasSeparators)
    requires !IsDigit(PeekAt(input, e))
    ensures NumberLiteral(input, start, e, NumberValue(input[start..e], simple, hasSeparators))
  {
    var text := input[start..e];
    assert forall k :: start <= k < e && input[k] == Underscore ==> k + 1 != e by {
      forall k | start <= k < e && input[k] == Underscore
        ensures k + 1 != e
      {
        assert IsDigit(input[k + 1]) && !IsDigit(PeekAt(input, e));
      }
    }
    if !hasSeparators {
      assert Underscore !in text by {
        forall k | 0 <= k < |text| ensures text[k] != Underscore {
          assert text[k] == input[start + k];
        }
      }
      RemoveSeparatorsNone(text);
    }
    if simple {
      assert forall k :: 0 <= k < |text| ==> IsDigit(text[k]) || text[k] == Underscore by {
        forall k | 0 <= k < |text| ensures IsDigit(text[k]) || text[k] == Underscore {
          assert text[k] == input[start + k];
        }
      }
      RemoveSeparatorsLeavesDigits(text);
      DecimalValueNatural(RemoveSeparators(text));
    }
  }

  /** Every number token scanNumber returns is a number literal with the value
      described by NumberLiteral. */
  lemma ScanNumberFacts(input: seq<Byte>, start: int, cur: int)
    requires 0 <= start <= cur < |input| && IsDigit(input[cur])
    requires cur == start || (cur == start + 1 && input[start] == Period)
    ensures var r := ScanNumber(input, start, cur);
            r.outcome.Ok? ==> NumberLiteral(input, start, r.outcome.token.end, r.outcome.token.numValue)
  {
    StartFacts(input, start, cur);
    NumberLoopKeepsFacts(input, start, cur + 1, cur == start, false);
    var loop := ScanNumberLoop(input, cur + 1, cur == start, false);
    if loop.LoopDone? {
      NumberValueFacts(input, start, loop.end, loop.simple, loop.hasSeparators);
    }
  }

  /** The facts hold of the literal's first digit, with its leading period. */
  lemma StartFacts(input: seq<Byte>, start: int, cur: int)
    requires 0 <= start <= cur < |input| && IsDigit(input[cur])
    requires cur == start || (cur == start + 1 && input[start] == Period)
    ensures NumberFacts(input, start, cur + 1, cur == start, false)
  {
  }

  // ---------------------------------------------------------------------
  // Tokens one at a time

  /** Every token scanToken returns is well formed for its kind, and the
      bytes it passed over before the token are all skippable. */
  lemma {:induction false} ScanTokenWellFormed(input: seq<Byte>, i: int)
    requires i >= -1
    ensures var r := ScanToken(input, i);
            r.outcome.Ok? ==>
              WellFormedToken(input, r.outcome.token) &&
              forall j :: i <= j < r.outcome.token.index && 0 <= j ==> IsSkippable(input[j])
    decreases Ahead(input, i), 2
  {
    var s := SkipBlank(input, i);
    if s < |input| {
      DispatchWellFormed(input, s);
      var r := ScanToken(input, i);
      if r.outcome.Ok? {
        forall j | i <= j < r.outcome.token.index && 0 <= j
          ensures IsSkippable(input[j])
        {
          if j < s {
            if j == i {
              assert PeekAt(input, i) <= Space;
            }
          }
        }
      }
    }
  }

  lemma {:induction false} DispatchWellFormed(input: seq<Byte>, s: int)
    requires 0 <= s < |input|
    ensures var r := Dispatch(input, s);
            r.outcome.Ok? ==>
              WellFormedToken(input, r.outcome.token) &&
              forall j :: s <= j < r.outcome.token.index ==> IsSkippable(input[j])
    decreases Ahead(input, s), 1
  {
    var c := input[s];
    if c == NonBreakingSpace {
      SpaceWellFormed(input, s);
    } else if IsIdentifierStart(c) || IsDigit(c) || c == Period || IsSingleCharacter(c) || c == Hash {
      WordWellFormed(input, s);
    } else if c == SingleQuote || c == DoubleQuote {
      QuoteWellFormed(input, s);
    } else {
      OperatorWellFormed(input, s);
    }
  }

  /** A string: its span ends where its body stops, and its value is the
      decoding of the body. */
  lemma QuoteWellFormed(input: seq<Byte>, s: int)
    requires 0 <= s < |input| && (input[s] == SingleQuote || input[s] == DoubleQuote)
    ensures var r := Dispatch(input, s);
            r.outcome.Ok? ==> StringToken(input, r.outcome.token) && r.outcome.token.index == s
  {
    StringLoopDecodes(input, s, input[s], s + 1, s + 1, []);
    StringEndsOnQuote(input, s);
  }

  /** A non-breaking space: scanToken again after the whitespace run. */
  lemma {:induction false} SpaceWellFormed(input: seq<Byte>, s: int)
    requires 0 <= s < |input| && input[s] == NonBreakingSpace
    ensures var r := Dispatch(input, s);
            r.outcome.Ok? ==>
              WellFormedToken(input, r.outcome.token) &&
              forall j :: s <= j < r.outcome.token.index ==> IsSkippable(input[j])
    decreases Ahead(input, s), 0
  {
    var w := SkipWhitespace(input, s);
    assert s < w;
    assert Dispatch(input, s) == ScanToken(input, w);
    ScanTokenWellFormed(input, w);
  }

  /** Identifiers, keywords, numbers, single characters and private identifiers. */
  lemma WordWellFormed(input: seq<Byte>, s: int)
    requires 0 <= s < |input|
    requires var c := input[s]; IsIdentifierStart(c) || IsDigit(c) || c == Period || IsSingleCharacter(c) || c == Hash
    ensures var r := Dispatch(input, s);
            r.outcome.Ok? ==> WellFormedToken(input, r.outcome.token) && r.outcome.token.index == s
  {
    var r := Dispatch(input, s);
    if IsIdentifierStart(input[s]) {
      assert Contains(Keywords, input[s..r.next]) <==> input[s..r.next] in Keywords;
    } else if StartsNumber(input, s) {
      DispatchRoutes(input, s);
      NumberOutcome(input, s, FirstDigit(input, s));
    }
  }

  /** The text scanComplexOperator gives is the span it covers. */
  lemma ComplexOperatorSpan(input: seq<Byte>, s: int, twoCode: int)
    requires 0 <= s < |input| && twoCode != Eof
    ensures var r := ScanComplexOperator(input, s, [input[s]], twoCode, [twoCode]);
            r.outcome.token.strValue == input[s..r.next]
  {
  }

  /** The text scanComplexOperatorThree gives is the span it covers. */
  lemma ComplexOperatorThreeSpan(input: seq<Byte>, s: int)
    requires 0 <= s < |input|
    ensures var r := ScanComplexOperatorThree(input, s, [input[s]], Equals, [Equals], Equals, [Equals]);
            r.outcome.token.strValue == input[s..r.next]
  {
    var r := ScanComplexOperatorThree(input, s, [input[s]], Equals, [Equals], Equals, [Equals]);
    if r.next == s + 3 {
      assert input[s..s + 3] == [input[s], Equals, Equals];
    }
  }

  /** Operators, and the unexpected-character error for any other byte. */
  lemma OperatorWellFormed(input: seq<Byte>, s: int)
    requires 0 <= s < |input|
    requires var c := input[s];
             !(IsIdentifierStart(c) || IsDigit(c) || c == Period || IsSingleCharacter(c) || c == Hash ||
               c == SingleQuote || c == DoubleQuote || c == NonBreakingSpace)
    ensures var r := Dispatch(input, s);
            r.outcome.Ok? ==> WellFormedToken(input, r.outcome.token) && r.outcome.token.index == s
  {
    var c := input[s];
    if c == LessThan || c == GreaterThan || c == Ampersand || c == Bar || c == Bang || c == Equals {
      ComparisonWellFormed(input, s);
    } else {
      var r := Dispatch(input, s);
      if r.outcome.Ok? {
        assert OperatorToken(input, r.outcome.token);
      }
    }
  }

  /** The operators that may be followed by a second or third byte. */
  lemma ComparisonWellFormed(input: seq<Byte>, s: int)
    requires 0 <= s < |input|
    requires var c := input[s];
             c == LessThan || c == GreaterThan || c == Ampersand || c == Bar || c == Bang || c == Equals
    ensures var r := Dispatch(input, s);
            r.outcome.Ok? ==> OperatorToken(input, r.outcome.token) && r.outcome.token.index == s
  {
    var c := input[s];
    var r := Dispatch(input, s);
    if c == LessThan || c == GreaterThan || c == Ampersand || c == Bar {
      ComplexOperatorSpan(input, s, if c == Ampersand || c == Bar then c else Equals);
    } else {
      ComplexOperatorThreeSpan(input, s);
    }
  }

  // ---------------------------------------------------------------------
  // Tokenize

  /** Tokens lie inside the input, in order, without overlapping. */
  predicate InOrder(input: seq<Byte>, ts: seq<Token>) {
    (forall k :: 0 <= k < |ts| ==> 0 <= ts[k].index < ts[k].end <= |input|) &&
    (forall k :: 0 <= k < |ts| - 1 ==> ts[k].end <= ts[k + 1].index)
  }

  /** b is what scanToken yields at the end of a. */
  predicate ScannedAfter(input: seq<Byte>, a: Token, b: Token) {
    a.end >= -1 && ScanToken(input, a.end) == Step(Ok(b), b.end)
  }

  /** ts is the run of successful scans from position i: each token is what
      scanToken yields at the end of the one before it. */
  predicate ScannedFrom(input: seq<Byte>, i: int, ts: seq<Token>)
    requires i >= -1
  {
    (|ts| > 0 ==> ScanToken(input, i) == Step(Ok(ts[0]), ts[0].end)) &&
    (forall k :: 0 <= k < |ts| - 1 ==> ScannedAfter(input, ts[k], ts[k + 1]))
  }

  /** The position the scan after the run ts from i starts at. */
  function After(i: int, ts: seq<Token>): int {
    if ts == [] then i else ts[|ts| - 1].end
  }

  /** A run of successful scans is in order and starts at or after i. */
  lemma ScannedFromOrdered(input: seq<Byte>, i: int, ts: seq<Token>)
    requires i >= -1 && ScannedFrom(input, i, ts)
    ensures InOrder(input, ts)
    ensures ts != [] ==> ts[0].index >= i
  {
    forall k | 0 <= k < |ts|
      ensures 0 <= ts[k].index < ts[k].end <= |input|
    {
      if k > 0 {
        assert ScannedAfter(input, ts[k - 1], ts[k]);
      }
    }
    forall k | 0 <= k < |ts| - 1
      ensures ts[k].end <= ts[k + 1].index
    {
      assert ScannedAfter(input, ts[k], ts[k + 1]);
    }
  }

  /** Every token of a run of successful scans is well formed. */
  lemma ScannedFromWellFormed(input: seq<Byte>, i: int, ts: seq<Token>)
    requires i >= -1 && ScannedFrom(input, i, ts)
    ensures forall k :: 0 <= k < |ts| ==> WellFormedToken(input, ts[k])
  {
    forall k | 0 <= k < |ts|
      ensures WellFormedToken(input, ts[k])
    {
      if k == 0 {
        ScanTokenWellFormed(input, i);
      } else {
        assert ScannedAfter(input, ts[k - 1], ts[k]);
        ScanTokenWellFormed(input, ts[k - 1].end);
      }
    }
  }

  /** ts extends acc by the run of successful scans from i, and the scan
      after that run gives no token. */
  predicate RunFrom(input: seq<Byte>, i: int, acc: seq<Token>, ts: seq<Token>)
    requires i >= -1
  {
    |acc| <= |ts| && ts[..|acc|] == acc && ScannedFrom(input, i, ts[|acc|..]) &&
    After(i, ts[|acc|..]) >= -1 &&
    !ScanToken(input, After(i, ts[|acc|..])).outcome.Ok?
  }

  /** One successful scan in front of a run is a run. */
  lemma RunStep(input: seq<Byte>, i: int, acc: seq<Token>, t: Token, ts: seq<Token>)
    requires i >= -1 && t.end >= -1 && ScanToken(input, i) == Step(Ok(t), t.end)
    requires RunFrom(input, t.end, acc + [t], ts)
    ensures RunFrom(input, i, acc, ts)
  {
    var rest := ts[|acc|..];
    assert ts[..|acc| + 1] == acc + [t];
    assert ts[..|acc|] == (acc + [t])[..|acc|] == acc;
    assert rest[0] == t;
    assert rest[1..] == ts[|acc| + 1..];
    assert forall k :: 0 < k < |rest| ==> rest[k] == rest[1..][k - 1];
  }

  /** TokensFrom returns acc followed by the run of successful scans from i. */
  lemma {:induction false} TokensFromRun(input: seq<Byte>, i: int, acc: seq<Token>)
    requires i >= -1
    ensures TokensFrom(input, i, acc).Tokens? ==> RunFrom(input, i, acc, TokensFrom(input, i, acc).tokens)
    decreases Ahead(input, i)
  {
    var step := ScanToken(input, i);
    if step.outcome.Ok? {
      var t := step.outcome.token;
      TokensFromRun(input, step.next, acc + [t]);
      if TokensFrom(input, i, acc).Tokens? {
        RunStep(input, i, acc, t, TokensFrom(input, i, acc).tokens);
      }
    } else {
      assert TokensFrom(input, i, acc) == Tokens(acc) || TokensFrom(input, i, acc) == Crashed;
    }
  }

  /** Tokenize returns exactly the tokens of the successive scans up to the
      first scan that does not give a token (end of input or a lexical
      error); they are in order, never overlap, and each is well formed. */
  lemma TokenizeFacts(input: seq<Byte>)
    ensures Tokenize(input).Tokens? ==>
              var ts := Tokenize(input).tokens;
              ScannedFrom(input, -1, ts) && After(-1, ts) >= -1 &&
              !ScanToken(input, After(-1, ts)).outcome.Ok? &&
              InOrder(input, ts) && forall k :: 0 <= k < |ts| ==> WellFormedToken(input, ts[k])
  {
    TokensFromRun(input, -1, []);
    if Tokenize(input).Tokens? {
      var ts := Tokenize(input).tokens;
      assert ts[0..] == ts;
      ScannedFromOrdered(input, -1, ts);
      ScannedFromWellFormed(input, -1, ts);
    }
  }

  // ---------------------------------------------------------------------
  // IsIdentifier

  /** IsIdentifier as evidently intended: a non-empty text whose first byte
      is an identifier start and whose later bytes, up to the first NUL,
      are identifier parts. */
  predicate IsIdentifierIntended(text: seq<Byte>) {
    |text| > 0 && IsIdentifierStart(text[0]) &&
    forall j :: 1 <= j < FirstNul(text) ==> IsIdentifierPart(text[j])
  }

  /** As written, IsIdentifier rejects every text the intended check accepts. */
  lemma AsWrittenRejectsIdentifiers(text: seq<Byte>)
    requires IsIdentifierIntended(text)
    ensures !IsIdentifierAsWritten(text)
  {
    assert text[0] != 0;
    assert FirstNul(text) > 0;
    assert IsIdentifierPart(text[0]);
  }

  /** For a text without NUL bytes, the intended check accepts exactly the
      texts the lexer reads as one identifier or keyword covering all of it. */
  lemma IntendedMatchesLexer(text: seq<Byte>)
    requires FirstNul(text) == |text|
    ensures IsIdentifierIntended(text) <==>
              var r := ScanToken(text, -1);
              r.outcome.Ok? && r.outcome.token.index == 0 && r.outcome.token.end == |text| &&
              (r.outcome.token.kind == Identifier || r.outcome.token.kind == Keyword)
  {
    if |text| > 0 {
      if IsIdentifierStart(text[0]) {
        FirstTokenFromStart(text);
        IdentifierCoversText(text);
      } else {
        NoIdentifierAtStart(text);
      }
    }
  }

  /** From an identifier start, scanIdentifier covers the whole text exactly
      when every later byte is an identifier part. */
  lemma IdentifierCoversText(text: seq<Byte>)
    requires 0 < |text| && IsIdentifierStart(text[0])
    ensures (forall j :: 1 <= j < |text| ==> IsIdentifierPart(text[j])) <==>
              var r := ScanIdentifier(text, 0);
              r.outcome.Ok? && r.outcome.token.index == 0 && r.outcome.token.end == |text| &&
              (r.outcome.token.kind == Identifier || r.outcome.token.kind == Keyword)
  {
    if forall j :: 1 <= j < |text| ==> IsIdentifierPart(text[j]) {
      SkipPartsToEnd(text, 1);
    }
  }

  /** From the start of a text beginning with an identifier start, scanToken is scanIdentifier at 0. */
  lemma FirstTokenFromStart(text: seq<Byte>)
    requires 0 < |text| && IsIdentifierStart(text[0])
    ensures ScanToken(text, -1) == ScanIdentifier(text, 0)
  {
    assert SkipBlank(text, -1) == SkipBlank(text, 0) == 0;
  }

  /** A text beginning with anything else yields no identifier or keyword token at 0. */
  lemma NoIdentifierAtStart(text: seq<Byte>)
    requires 0 < |text| && !IsIdentifierStart(text[0])
    ensures var r := ScanToken(text, -1);
            r.outcome.Ok? && r.outcome.token.index == 0 ==>
              r.outcome.token.kind != Identifier && r.outcome.token.kind != Keyword
  {
    var s := SkipBlank(text, -1);
    assert s == SkipBlank(text, 0);
    if s == 0 {
      DispatchOtherKinds(text);
    }
  }

  /** Skipping identifier parts from j reaches the end when every byte from j is one. */
  lemma {:induction false} SkipPartsToEnd(text: seq<Byte>, j: int)
    requires 0 <= j <= |text| && forall k :: j <= k < |text| ==> IsIdentifierPart(text[k])
    ensures SkipIdentifierPart(text, j) == |text|
    decreases |text| - j
  {
    if j < |text| {
      SkipPartsToEnd(text, j + 1);
    }
  }

  /** A first byte that is no identifier start gives no identifier token at 0. */
  lemma DispatchOtherKinds(text: seq<Byte>)
    requires 0 < |text| && !IsIdentifierStart(text[0])
    ensures var r := Dispatch(text, 0);
            r.outcome.Ok? && r.outcome.token.index == 0 ==>
              r.outcome.token.kind != Identifier && r.outcome.token.kind != Keyword
  {
    DispatchWellFormed(text, 0);
    var r := Dispatch(text, 0);
    if r.outcome.Ok? && r.outcome.token.index == 0 {
      assert !IdentifierToken(text, r.outcome.token);
    }
  }
}
