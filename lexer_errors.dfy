/** When the expression lexer fails, and with which error, for every input:
    how far the number loop and the string loop run, what each does at the
    byte it stops on, and which error scanToken returns, stated both ways. */
module LexerErrors {
  import opened Chars
  import opened Tokens
  import opened LexerSpec

  // ---------------------------------------------------------------------
  // Number literals

  /** A separator at k stands between two digits, the second inside the input. */
  predicate SeparatorOk(input: seq<Byte>, k: int) {
    0 < k < |input| - 1 && IsDigit(input[k - 1]) && IsDigit(input[k + 1])
  }

  /** An exponent marker at k followed by a digit, or by a sign and a digit. */
  predicate ExponentOk(input: seq<Byte>, k: int) {
    IsExponentStart(PeekAt(input, k)) &&
    (IsDigit(PeekAt(input, k + 1)) || (IsExponentSign(PeekAt(input, k + 1)) && IsDigit(PeekAt(input, k + 2))))
  }

  /** A byte the number loop passes over: a digit, a period, a separator
      between digits, a well-formed exponent marker, or its sign. */
  predicate InNumber(input: seq<Byte>, k: int) {
    var c := PeekAt(input, k);
    IsDigit(c) || c == Period || (c == Underscore && SeparatorOk(input, k)) ||
    ExponentOk(input, k) || (IsExponentSign(c) && ExponentOk(input, k - 1))
  }

  /** Where the number loop from i stops: the first byte from i that it does
      not pass over (the end of the input at the latest). */
  function NumberStop(input: seq<Byte>, i: int): (p: int)
    requires 0 <= i <= |input|
    ensures i <= p <= |input| && !InNumber(input, p)
    ensures forall k :: i <= k < p ==> InNumber(input, k)
    decreases |input| - i
  {
    if !InNumber(input, i) then i else NumberStop(input, i + 1)
  }

  /** A literal starts at t: a digit, or a period followed by a digit. */
  predicate StartsNumber(input: seq<Byte>, t: int)
    requires 0 <= t < |input|
  {
    IsDigit(input[t]) || (input[t] == Period && IsDigit(PeekAt(input, t + 1)))
  }

  /** The first digit of the literal starting at t. */
  function FirstDigit(input: seq<Byte>, t: int): (d: int)
    requires 0 <= t < |input| && StartsNumber(input, t)
    ensures t <= d < |input| && IsDigit(input[d])
  {
    if IsDigit(input[t]) then t else t + 1
  }

  /** Where the literal starting at t stops. */
  function NumberEnd(input: seq<Byte>, t: int): (p: int)
    requires 0 <= t < |input| && StartsNumber(input, t)
    ensures t < p <= |input|
  {
    NumberStop(input, FirstDigit(input, t) + 1)
  }

  /** A separator at the stop p that is the input's last byte right after a
      digit: the loop reads the byte after it, past the end. */
  predicate FinalSeparator(input: seq<Byte>, p: int)
    requires 0 < p <= |input|
  {
    PeekAt(input, p) == Underscore && IsDigit(input[p - 1]) && p + 1 == |input|
  }

  /** Each turn of the loop moves from i over bytes it passes over, and a turn
      never starts on the sign of an exponent. */
  lemma NumberTurnPasses(input: seq<Byte>, i: int, simple: bool, hasSeparators: bool)
    requires 0 < i <= |input| && InNumber(input, i)
    requires !(IsExponentSign(PeekAt(input, i)) && ExponentOk(input, i - 1))
    ensures var t := NumberLoopTurn(input, i, simple, hasSeparators);
            t.Next? && (forall k :: i <= k < t.at ==> InNumber(input, k)) &&
            !(IsExponentSign(PeekAt(input, t.at)) && ExponentOk(input, t.at - 1))
  {
    var t := NumberLoopTurn(input, i, simple, hasSeparators);
    if ExponentOk(input, i) {
      assert InNumber(input, i + 1);
      if IsExponentSign(PeekAt(input, i + 1)) {
        assert InNumber(input, i + 2);
      }
    }
  }

  /** Skipping a run of bytes the loop passes over leaves the stop in place. */
  lemma {:induction false} NumberStopSkips(input: seq<Byte>, i: int, j: int)
    requires 0 <= i <= j <= |input| && forall k :: i <= k < j ==> InNumber(input, k)
    ensures NumberStop(input, i) == NumberStop(input, j)
    decreases j - i
  {
    if i < j {
      NumberStopSkips(input, i + 1, j);
    }
  }

  /** The number loop from a turn start i runs to the stop p and ends there:
      on a separator with an error, or with the read past the end after a
      final separator; on an exponent marker with an exponent error; and on
      any other byte with the literal done at p. */
  lemma {:induction false} NumberLoopStops(input: seq<Byte>, i: int, simple: bool, hasSeparators: bool)
    requires 0 < i <= |input|
    requires !(IsExponentSign(PeekAt(input, i)) && ExponentOk(input, i - 1))
    ensures var p, r := NumberStop(input, i), ScanNumberLoop(input, i, simple, hasSeparators);
            var c := PeekAt(input, p);
            (c == Underscore ==>
               r.LoopFailed? && r.step.next == p &&
               r.step.outcome == (if FinalSeparator(input, p) then Panic else Err(InvalidNumericSeparator))) &&
            (IsExponentStart(c) ==> r.LoopFailed? && r.step.outcome == Err(InvalidExponent)) &&
            (c != Underscore && !IsExponentStart(c) ==> r.LoopDone? && r.end == p)
    decreases |input| - i
  {
    if InNumber(input, i) {
      var t := NumberLoopTurn(input, i, simple, hasSeparators);
      NumberTurnPasses(input, i, simple, hasSeparators);
      NumberStopSkips(input, i, t.at);
      NumberLoopStops(input, t.at, t.simple, t.hasSeparators);
    }
  }

  /** scanNumber fails exactly at the stop of its literal: with the read past
      the end when the stop is a final separator after a digit, with an
      InvalidNumericSeparator error on any other separator, with an
      InvalidExponent error on an exponent marker; otherwise the literal is a
      token that ends at the stop. */
  lemma NumberOutcome(input: seq<Byte>, start: int, cur: int)
    requires 0 <= start <= cur < |input| && IsDigit(input[cur])
    requires cur == start || (cur == start + 1 && input[start] == Period)
    ensures var p, r := NumberStop(input, cur + 1), ScanNumber(input, start, cur);
            var c := PeekAt(input, p);
            (r.outcome == Panic <==> FinalSeparator(input, p)) &&
            (r.outcome == Err(InvalidNumericSeparator) <==> c == Underscore && !FinalSeparator(input, p)) &&
            (r.outcome == Err(InvalidExponent) <==> IsExponentStart(c)) &&
            (r.outcome.Ok? <==> c != Underscore && !IsExponentStart(c)) &&
            (r.outcome.Ok? ==> r.outcome.token.end == p)
  {
    NumberLoopStops(input, cur + 1, cur == start, false);
  }

  // ---------------------------------------------------------------------
  // String bodies

  /** Where the unit of a string body that starts at k ends: after `\u` and
      four bytes, after a backslash and one byte, or after one byte. */
  function UnitEnd(input: seq<Byte>, k: int): int {
    if PeekAt(input, k) == Backslash then (if PeekAt(input, k + 1) == LowerU then k + 6 else k + 2)
    else k + 1
  }

  /** A unit the string loop passes over: it starts neither on the closing
      quote q nor at the end of the input or on a NUL, and a `\u` escape
      has four lower-case hex digits inside the input. */
  predicate GoodUnit(input: seq<Byte>, q: int, k: int) {
    var c := PeekAt(input, k);
    c != q && c != Eof &&
    (c == Backslash && PeekAt(input, k + 1) == LowerU ==>
       k + 6 <= |input| && var hex := input[k + 2..k + 6]; forall n :: 0 <= n < |hex| ==> IsLowerHex(hex[n]))
  }

  /** Where the string loop from i stops: the start of the first unit it
      does not pass over. */
  function StringStop(input: seq<Byte>, q: int, i: int): (p: int)
    requires 0 <= i <= |input| + 1
    ensures i <= p <= |input| + 1 && !GoodUnit(input, q, p)
    decreases |input| + 1 - i
  {
    if !GoodUnit(input, q, i) then i else StringStop(input, q, UnitEnd(input, i))
  }

  /** What a string loop does at its stop p, given its step r: the token on the
      closing quote, UnterminatedQuote at the end of the input or a NUL,
      and on a `\u` escape the read past the end when its four bytes do not
      fit, or else an InvalidUnicodeEscape error carrying them. */
  predicate StopsAs(input: seq<Byte>, q: int, p: int, r: Step)
    requires 0 <= p
  {
    var c := PeekAt(input, p);
    (c == q ==> r.outcome.Ok? && r.next == p + 1) &&
    (c == Eof ==> r == Step(Err(UnterminatedQuote), p)) &&
    (c == Backslash ==>
       p + 1 <= |input| && PeekAt(input, p + 1) == LowerU && r.next == p + 1 &&
       r.outcome == (if p + 6 > |input| then Panic else Err(InvalidUnicodeEscape(input[p + 2..p + 6]))))
  }

  /** The string loop from i ends at its stop as StopsAs says. */
  predicate LoopStopsAt(input: seq<Byte>, s: int, q: int, i: int, marker: int, buffer: seq<Piece>)
    requires 0 <= s < i <= |input| + 1 && s < marker <= i && q != Eof
  {
    StopsAs(input, q, StringStop(input, q, i), ScanStringLoop(input, s, q, i, marker, buffer))
  }

  /** The string loop from i runs to its stop and ends there as LoopStopsAt says. */
  lemma {:induction false} StringLoopStops(input: seq<Byte>, s: int, q: int, i: int, marker: int, buffer: seq<Piece>)
    requires 0 <= s < i <= |input| + 1 && s < marker <= i
    requires q != Eof && q != Backslash
    ensures LoopStopsAt(input, s, q, i, marker, buffer)
    decreases |input| + 1 - i
  {
    if !GoodUnit(input, q, i) {
      StringStopTurn(input, s, q, i, marker, buffer);
    } else if PeekAt(input, i) == Backslash {
      var esc := ScanEscape(input, i + 1);
      EscapeUnitDecodes(input, q, i);
      StringLoopStops(input, s, q, esc.next, esc.next, buffer + [Raw(input[marker..i])] + [Rune(esc.code)]);
      EscapeUnitStops(input, s, q, i, marker, buffer);
    } else {
      StringLoopStops(input, s, q, i + 1, marker, buffer);
      PlainUnitStops(input, s, q, i, marker, buffer);
    }
  }

  /** A passed-over escape unit: if the loop after it stops as LoopStopsAt
      says, so does the loop at it. */
  lemma EscapeUnitStops(input: seq<Byte>, s: int, q: int, i: int, marker: int, buffer: seq<Piece>)
    requires 0 <= s < i < |input| && s < marker <= i && q != Eof && q != Backslash
    requires input[i] == Backslash && GoodUnit(input, q, i)
    requires ScanEscape(input, i + 1).Decoded? && ScanEscape(input, i + 1).next == UnitEnd(input, i)
    requires var esc := ScanEscape(input, i + 1);
             LoopStopsAt(input, s, q, esc.next, esc.next, buffer + [Raw(input[marker..i])] + [Rune(esc.code)])
    ensures LoopStopsAt(input, s, q, i, marker, buffer)
  {
    EscapeTurnDecoded(input, s, q, i, marker, buffer);
  }

  /** A passed-over plain byte: if the loop after it stops as LoopStopsAt
      says, so does the loop at it. */
  lemma PlainUnitStops(input: seq<Byte>, s: int, q: int, i: int, marker: int, buffer: seq<Piece>)
    requires 0 <= s < i < |input| && s < marker <= i && q != Eof && q != Backslash
    requires input[i] != Backslash && GoodUnit(input, q, i)
    requires LoopStopsAt(input, s, q, i + 1, marker, buffer)
    ensures LoopStopsAt(input, s, q, i, marker, buffer)
  {
    PlainTurn(input, s, q, i, marker, buffer);
  }

  /** The escape of a unit the loop passes over decodes, and ends with the unit. */
  lemma EscapeUnitDecodes(input: seq<Byte>, q: int, i: int)
    requires 0 <= i < |input| && input[i] == Backslash && GoodUnit(input, q, i)
    ensures ScanEscape(input, i + 1).Decoded? && ScanEscape(input, i + 1).next == UnitEnd(input, i)
  {
    if PeekAt(input, i + 1) == LowerU {
      assert input[i + 2..i + 6] == input[i + 1 + 1..i + 1 + 5];
    }
  }

  /** The loop at a unit it does not pass over stops right there. */
  lemma StringStopTurn(input: seq<Byte>, s: int, q: int, i: int, marker: int, buffer: seq<Piece>)
    requires 0 <= s < i <= |input| + 1 && s < marker <= i
    requires q != Eof && q != Backslash && !GoodUnit(input, q, i)
    ensures LoopStopsAt(input, s, q, i, marker, buffer)
  {
    if PeekAt(input, i) == Backslash {
      assert i < |input| && PeekAt(input, i + 1) == LowerU;
      var esc := ScanEscape(input, i + 1);
      if i + 6 > |input| {
        assert esc == EscapeFailed(Step(Panic, i + 1));
      } else {
        var hex := input[i + 2..i + 6];
        assert hex == input[i + 1 + 1..i + 1 + 5];
        assert esc == EscapeFailed(Step(Err(InvalidUnicodeEscape(hex)), i + 1));
      }
      assert ScanStringLoop(input, s, q, i, marker, buffer) == esc.step;
    }
  }

  /** scanString from an opening quote q at s: a token exactly when the stop
      of the body is q, and then the token ends just after it;
      UnterminatedQuote exactly when the stop is the end of the input or a
      NUL; and at a `\u` escape stop, the read past the end exactly when
      its four bytes do not fit, else InvalidUnicodeEscape with those bytes,
      not all of them lower-case hex. */
  lemma StringOutcome(input: seq<Byte>, s: int)
    requires 0 <= s < |input| && (input[s] == SingleQuote || input[s] == DoubleQuote)
    ensures var q, r := input[s], ScanString(input, s);
            var p := StringStop(input, q, s + 1);
            var c := PeekAt(input, p);
            (c == q || c == Eof || c == Backslash) &&
            (r.outcome.Ok? <==> c == q) &&
            (r.outcome.Ok? ==> r.outcome.token.end == p + 1) &&
            (r.outcome == Err(UnterminatedQuote) <==> c == Eof) &&
            (r.outcome == Panic <==> c == Backslash && p + 6 > |input|) &&
            (r.outcome.Err? && r.outcome.error.InvalidUnicodeEscape? <==> c == Backslash && p + 6 <= |input|) &&
            (c == Backslash && p + 6 <= |input| ==>
               var hex := input[p + 2..p + 6];
               r.outcome == Err(InvalidUnicodeEscape(hex)) && !(forall n :: 0 <= n < |hex| ==> IsLowerHex(hex[n])))
  {
    StringStopsHere(input, s);
    StringEndsOnQuote(input, s);
    StringEndsOnEscape(input, s);
  }

  /** The string loop from just after the opening quote stops as
      LoopStopsAt says, on one of the three bytes a body can stop on. */
  lemma StringStopsHere(input: seq<Byte>, s: int)
    requires 0 <= s < |input| && (input[s] == SingleQuote || input[s] == DoubleQuote)
    ensures StopsAs(input, input[s], StringStop(input, input[s], s + 1), ScanString(input, s))
    ensures var c := PeekAt(input, StringStop(input, input[s], s + 1));
            c == input[s] || c == Eof || c == Backslash
  {
    StringLoopStops(input, s, input[s], s + 1, s + 1, []);
    StopUnit(input, input[s], StringStop(input, input[s], s + 1));
  }

  /** scanString gives a token exactly when the body stops on the closing
      quote, and UnterminatedQuote exactly when it stops at the end. */
  lemma StringEndsOnQuote(input: seq<Byte>, s: int)
    requires 0 <= s < |input| && (input[s] == SingleQuote || input[s] == DoubleQuote)
    ensures var q, r := input[s], ScanString(input, s);
            var p := StringStop(input, q, s + 1);
            var c := PeekAt(input, p);
            (r.outcome.Ok? <==> c == q) &&
            (r.outcome.Ok? ==> r.outcome.token.end == p + 1) &&
            (r.outcome == Err(UnterminatedQuote) <==> c == Eof)
  {
    StringStopsHere(input, s);
  }

  /** scanString at a `\u` escape stop: the read past the end exactly when
      its four bytes do not fit, else InvalidUnicodeEscape with those bytes,
      not all of them lower-case hex. */
  lemma StringEndsOnEscape(input: seq<Byte>, s: int)
    requires 0 <= s < |input| && (input[s] == SingleQuote || input[s] == DoubleQuote)
    ensures var q, r := input[s], ScanString(input, s);
            var p := StringStop(input, q, s + 1);
            var c := PeekAt(input, p);
            (r.outcome == Panic <==> c == Backslash && p + 6 > |input|) &&
            (r.outcome.Err? && r.outcome.error.InvalidUnicodeEscape? <==> c == Backslash && p + 6 <= |input|) &&
            (c == Backslash && p + 6 <= |input| ==>
               var hex := input[p + 2..p + 6];
               r.outcome == Err(InvalidUnicodeEscape(hex)) && !(forall n :: 0 <= n < |hex| ==> IsLowerHex(hex[n])))
  {
    var q, r := input[s], ScanString(input, s);
    var p := StringStop(input, q, s + 1);
    StringStopsHere(input, s);
    StopUnit(input, q, p);
    assert StopsAs(input, q, p, r);
    if PeekAt(input, p) == Backslash {
      assert q != Backslash;
      assert r.outcome == (if p + 6 > |input| then Panic else Err(InvalidUnicodeEscape(input[p + 2..p + 6])));
    }
  }

  /** The unit a string body stops at starts on the closing quote, at the
      end of the input or a NUL, or on a `\u` escape whose four bytes do not
      fit or are not all lower-case hex. */
  lemma StopUnit(input: seq<Byte>, q: int, p: int)
    requires !GoodUnit(input, q, p)
    ensures var c := PeekAt(input, p);
            (c == q || c == Eof || c == Backslash) &&
            (c == Backslash && c != q ==> PeekAt(input, p + 1) == LowerU) &&
            (c == Backslash && c != q && p + 6 <= |input| ==>
               var hex := input[p + 2..p + 6]; !(forall n :: 0 <= n < |hex| ==> IsLowerHex(hex[n])))
  {
  }

  // ---------------------------------------------------------------------
  // scanToken

  /** The bytes scanToken's dispatch handles; any other byte is unexpected. */
  predicate Dispatched(c: int) {
    IsIdentifierStart(c) || IsDigit(c) || c == Period || IsSingleCharacter(c) ||
    c == SingleQuote || c == DoubleQuote || c == Hash || IsSingleOperator(c) || c == Question ||
    c == LessThan || c == GreaterThan || c == Bang || c == Equals || c == Ampersand || c == Bar ||
    c == NonBreakingSpace
  }

  /** Where scanToken from i dispatches for the last time: past the blanks,
      and past every non-breaking-space run and the blanks after it; at or
      past the end when the input runs out first. */
  function TokenStart(input: seq<Byte>, i: int): (t: int)
    requires i >= -1
    ensures t >= i
    ensures t < |input| ==> 0 <= t && input[t] > Space && input[t] != NonBreakingSpace
    decreases Ahead(input, i)
  {
    var s := SkipBlank(input, i);
    if s >= |input| then s
    else if input[s] == NonBreakingSpace then TokenStart(input, SkipWhitespace(input, s))
    else s
  }

  /** scanToken is the end-of-input error past the end, and otherwise the
      dispatch at the token start. */
  lemma {:induction false} ScanTokenAtStart(input: seq<Byte>, i: int)
    requires i >= -1
    ensures var t := TokenStart(input, i);
            ScanToken(input, i) == if t >= |input| then Step(Err(EndOfInput), t) else Dispatch(input, t)
    decreases Ahead(input, i)
  {
    var s := SkipBlank(input, i);
    if s < |input| && input[s] == NonBreakingSpace {
      var w := SkipWhitespace(input, s);
      assert Dispatch(input, s) == ScanToken(input, w);
      ScanTokenAtStart(input, w);
    }
  }

  /** The routine the dispatch hands a byte other than the non-breaking
      space to; only these routines can fail. */
  lemma DispatchRoutes(input: seq<Byte>, t: int)
    requires 0 <= t < |input| && input[t] != NonBreakingSpace
    ensures var c, r := input[t], Dispatch(input, t);
            (StartsNumber(input, t) ==> r == ScanNumber(input, t, FirstDigit(input, t))) &&
            (c == SingleQuote || c == DoubleQuote ==> r == ScanString(input, t)) &&
            (c == Hash ==> r == ScanPrivateIdentifier(input, t)) &&
            (!Dispatched(c) ==> r == Step(Err(UnexpectedCharacter(c)), t + 1)) &&
            (Dispatched(c) && !StartsNumber(input, t) && c != SingleQuote && c != DoubleQuote && c != Hash ==>
               r.outcome.Ok?)
  {
  }

  /** A literal starts at t and stops on a separator that is not final. */
  predicate BadSeparatorAt(input: seq<Byte>, t: int)
    requires 0 <= t < |input|
  {
    StartsNumber(input, t) &&
    PeekAt(input, NumberEnd(input, t)) == Underscore && !FinalSeparator(input, NumberEnd(input, t))
  }

  /** A literal starts at t and stops on a final separator. */
  predicate FinalSeparatorAt(input: seq<Byte>, t: int)
    requires 0 <= t < |input|
  {
    StartsNumber(input, t) && FinalSeparator(input, NumberEnd(input, t))
  }

  /** A literal starts at t and stops on an exponent marker. */
  predicate BadExponentAt(input: seq<Byte>, t: int)
    requires 0 <= t < |input|
  {
    StartsNumber(input, t) && IsExponentStart(PeekAt(input, NumberEnd(input, t)))
  }

  /** A string starts at t and its body stops on the byte c. */
  predicate StringStopsOn(input: seq<Byte>, t: int, c: int)
    requires 0 <= t < |input|
  {
    (input[t] == SingleQuote || input[t] == DoubleQuote) &&
    PeekAt(input, StringStop(input, input[t], t + 1)) == c
  }

  /** A string starts at t and the four bytes of the `\u` escape it stops on
      fit in the input. */
  predicate EscapeFitsAt(input: seq<Byte>, t: int)
    requires 0 <= t < |input|
  {
    StringStopsOn(input, t, Backslash) && StringStop(input, input[t], t + 1) + 6 <= |input|
  }

  /** The dispatch at a byte other than the non-breaking space never gives
      EndOfInput; it gives UnexpectedCharacter exactly at a byte it does not
      handle, and InvalidHashCharacter exactly at `#` followed by an
      identifier start. */
  lemma DispatchUnexpected(input: seq<Byte>, t: int)
    requires 0 <= t < |input| && input[t] != NonBreakingSpace
    ensures var r := Dispatch(input, t);
            (r.outcome.Err? && r.outcome.error.UnexpectedCharacter? <==> !Dispatched(input[t])) &&
            (r.outcome != Err(EndOfInput)) &&
            (r.outcome == Err(InvalidHashCharacter) <==> input[t] == Hash && IsIdentifierStart(PeekAt(input, t + 1)))
  {
    DispatchRoutes(input, t);
    if StartsNumber(input, t) {
      NumberOutcome(input, t, FirstDigit(input, t));
    } else if input[t] == SingleQuote || input[t] == DoubleQuote {
      StringOutcome(input, t);
    }
  }

  /** The dispatch gives the number errors exactly as the literal at t says. */
  lemma DispatchNumberErrors(input: seq<Byte>, t: int)
    requires 0 <= t < |input| && input[t] != NonBreakingSpace
    ensures var r := Dispatch(input, t);
            (r.outcome == Err(InvalidNumericSeparator) <==> BadSeparatorAt(input, t)) &&
            (r.outcome == Err(InvalidExponent) <==> BadExponentAt(input, t))
  {
    DispatchRoutes(input, t);
    if StartsNumber(input, t) {
      NumberOutcome(input, t, FirstDigit(input, t));
    } else if input[t] == SingleQuote || input[t] == DoubleQuote {
      StringOutcome(input, t);
    }
  }

  /** The dispatch gives the string errors exactly as the string at t says. */
  lemma DispatchStringErrors(input: seq<Byte>, t: int)
    requires 0 <= t < |input| && input[t] != NonBreakingSpace
    ensures var r := Dispatch(input, t);
            (r.outcome == Err(UnterminatedQuote) <==> StringStopsOn(input, t, Eof)) &&
            (r.outcome.Err? && r.outcome.error.InvalidUnicodeEscape? <==> EscapeFitsAt(input, t))
  {
    DispatchRoutes(input, t);
    if StartsNumber(input, t) {
      NumberOutcome(input, t, FirstDigit(input, t));
    } else if input[t] == SingleQuote || input[t] == DoubleQuote {
      StringOutcome(input, t);
    }
  }

  /** The dispatch reads past the end exactly at a final separator of a
      literal or a `\u` escape of a string whose four bytes do not fit. */
  lemma DispatchPanics(input: seq<Byte>, t: int)
    requires 0 <= t < |input| && input[t] != NonBreakingSpace
    ensures Dispatch(input, t).outcome == Panic <==>
            FinalSeparatorAt(input, t) || (StringStopsOn(input, t, Backslash) && !EscapeFitsAt(input, t))
  {
    DispatchRoutes(input, t);
    if StartsNumber(input, t) {
      NumberOutcome(input, t, FirstDigit(input, t));
    } else if input[t] == SingleQuote || input[t] == DoubleQuote {
      StringOutcome(input, t);
    }
  }

  /** scanToken gives the end-of-input error exactly when the input runs out
      before a token start, and an unexpected-character error exactly when
      the token start holds a byte the dispatch does not handle; that error
      names the byte. */
  lemma EndOrUnexpected(input: seq<Byte>, i: int)
    requires i >= -1
    ensures var t, r := TokenStart(input, i), ScanToken(input, i);
            (r.outcome == Err(EndOfInput) <==> t >= |input|) &&
            (r.outcome.Err? && r.outcome.error.UnexpectedCharacter? <==> t < |input| && !Dispatched(input[t])) &&
            (t < |input| && !Dispatched(input[t]) ==> r == Step(Err(UnexpectedCharacter(input[t])), t + 1))
  {
    ScanTokenAtStart(input, i);
    var t := TokenStart(input, i);
    if t < |input| {
      DispatchRoutes(input, t);
      DispatchUnexpected(input, t);
    }
  }

  /** scanToken gives InvalidHashCharacter exactly when the token start is
      `#` followed by an identifier start. */
  lemma HashError(input: seq<Byte>, i: int)
    requires i >= -1
    ensures var t, r := TokenStart(input, i), ScanToken(input, i);
            r.outcome == Err(InvalidHashCharacter) <==>
              t < |input| && input[t] == Hash && IsIdentifierStart(PeekAt(input, t + 1))
  {
    ScanTokenAtStart(input, i);
    var t := TokenStart(input, i);
    if t < |input| {
      DispatchUnexpected(input, t);
    }
  }

  /** scanToken's number errors: InvalidNumericSeparator exactly when a
      literal starts at the token start and stops on a separator that is not
      a final one, InvalidExponent exactly when it stops on an exponent
      marker. */
  lemma NumberErrors(input: seq<Byte>, i: int)
    requires i >= -1
    ensures var t, r := TokenStart(input, i), ScanToken(input, i);
            (r.outcome == Err(InvalidNumericSeparator) <==> t < |input| && BadSeparatorAt(input, t)) &&
            (r.outcome == Err(InvalidExponent) <==> t < |input| && BadExponentAt(input, t))
  {
    ScanTokenAtStart(input, i);
    var t := TokenStart(input, i);
    if t < |input| {
      DispatchNumberErrors(input, t);
    }
  }

  /** scanToken's string errors: UnterminatedQuote exactly when a string
      starts at the token start and its body stops at the end of the input
      or a NUL, InvalidUnicodeEscape exactly when it stops on a `\u` escape
      whose four bytes fit in the input. */
  lemma StringErrors(input: seq<Byte>, i: int)
    requires i >= -1
    ensures var t, r := TokenStart(input, i), ScanToken(input, i);
            (r.outcome == Err(UnterminatedQuote) <==> t < |input| && StringStopsOn(input, t, Eof)) &&
            (r.outcome.Err? && r.outcome.error.InvalidUnicodeEscape? <==> t < |input| && EscapeFitsAt(input, t))
  {
    ScanTokenAtStart(input, i);
    var t := TokenStart(input, i);
    if t < |input| {
      DispatchStringErrors(input, t);
    }
  }

  /** scanToken aborts the program exactly when a literal at the token start
      stops on a final separator, or a string there stops on a `\u` escape
      whose four bytes run past the end. */
  lemma PanicCases(input: seq<Byte>, i: int)
    requires i >= -1
    ensures var t, r := TokenStart(input, i), ScanToken(input, i);
            r.outcome == Panic <==>
              t < |input| && (FinalSeparatorAt(input, t) || (StringStopsOn(input, t, Backslash) && !EscapeFitsAt(input, t)))
  {
    ScanTokenAtStart(input, i);
    var t := TokenStart(input, i);
    if t < |input| {
      DispatchPanics(input, t);
    }
  }
}
