/** Go's conversion of an integer code point to a string: the UTF-8 bytes of
    the code, with the replacement character U+FFFD for a surrogate or a
    code outside the Unicode range. scanString appends every escape this
    way. */
module Runes {

  const MaxRune := 0x10FFFF

  /** The replacement bytes EF BF BD of U+FFFD. */
  const Replacement: seq<int> := [0xEF, 0xBF, 0xBD]

  /** A code point UTF-8 can encode: in range and not a surrogate half. */
  predicate IsValidRune(code: int) {
    0 <= code <= MaxRune && !(0xD800 <= code <= 0xDFFF)
  }

  /** The low six bits of a code: its remainder by 64, by subtraction. */
  function Low6(code: nat): (r: nat)
    ensures r < 64
    decreases code
  {
    if code < 64 then code else Low6(code - 64)
  }

  /** The code shifted right by six bits: its quotient by 64, by subtraction. */
  function High(code: nat): (r: nat)
    ensures r <= code
    decreases code
  {
    if code < 64 then 0 else 1 + High(code - 64)
  }

  /** The bytes of string(rune(code)): one byte below 0x80, two below 0x800,
      three below 0x10000 and four above, each continuation byte carrying
      six bits, most significant first. */
  function EncodeRune(code: int): (bytes: seq<int>)
    ensures 1 <= |bytes| <= 4
    ensures |bytes| == 1 <==> 0 <= code < 0x80
    ensures 0 <= code < 0x80 ==> bytes == [code]
    ensures !IsValidRune(code) ==> bytes == Replacement
  {
    if !IsValidRune(code) then Replacement
    else if code < 0x80 then [code]
    else if code < 0x800 then [0xC0 + High(code), 0x80 + Low6(code)]
    else if code < 0x10000 then [0xE0 + High(High(code)), 0x80 + Low6(High(code)), 0x80 + Low6(code)]
    else [0xF0 + High(High(High(code))), 0x80 + Low6(High(High(code))), 0x80 + Low6(High(code)), 0x80 + Low6(code)]
  }

  /** The code point a UTF-8 sequence of one to four bytes stands for, read
      from the bits its lead and continuation bytes carry. */
  function DecodeRune(bytes: seq<int>): int
    requires 1 <= |bytes| <= 4
  {
    if |bytes| == 1 then bytes[0]
    else if |bytes| == 2 then (bytes[0] - 0xC0) * 64 + (bytes[1] - 0x80)
    else if |bytes| == 3 then (bytes[0] - 0xE0) * 4096 + (bytes[1] - 0x80) * 64 + (bytes[2] - 0x80)
    else (bytes[0] - 0xF0) * 0x40000 + (bytes[1] - 0x80) * 4096 + (bytes[2] - 0x80) * 64 + (bytes[3] - 0x80)
  }

  /** A continuation byte: 10xxxxxx. */
  predicate IsContinuation(b: int) {
    0x80 <= b < 0xC0
  }

  /** A code is its high part times 64 plus its low six bits. */
  lemma {:induction false} SplitSix(code: nat)
    ensures High(code) * 64 + Low6(code) == code
    decreases code
  {
    if code >= 64 {
      SplitSix(code - 64);
    }
  }

  /** Every valid code point comes back from its bytes, which are a lead
      byte of the right length followed by continuation bytes; every other
      code becomes the replacement character. Every byte is below 256. */
  lemma EncodeRuneRoundTrip(code: int)
    ensures forall k :: 0 <= k < |EncodeRune(code)| ==> 0 <= EncodeRune(code)[k] < 256
    ensures IsValidRune(code) ==> DecodeRune(EncodeRune(code)) == code
    ensures IsValidRune(code) ==>
              var bytes := EncodeRune(code);
              forall k :: 1 <= k < |bytes| ==> IsContinuation(bytes[k])
    ensures IsValidRune(code) ==>
              var lead := EncodeRune(code)[0];
              (|EncodeRune(code)| == 2 ==> 0xC0 <= lead < 0xE0) &&
              (|EncodeRune(code)| == 3 ==> 0xE0 <= lead < 0xF0) &&
              (|EncodeRune(code)| == 4 ==> 0xF0 <= lead < 0xF8)
    ensures !IsValidRune(code) ==> EncodeRune(code) == Replacement
  {
    if IsValidRune(code) && code >= 0x80 {
      SplitSix(code);
      SplitSix(High(code));
      SplitSix(High(High(code)));
    }
  }
}
