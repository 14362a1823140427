/**
 The text codec of the agent API (append_utf8_codepoint, unicode_to_utf8 and
 decode_utf8 in WebAssembly/src/wasm_agent_api.cpp) against the definition of
 UTF-8 in RFC 3629. Bit operations on unsigned values are written as the
 arithmetic they perform: `& 0x3f` is `% 64`, `>> 6` is `/ 64`, and `|` of
 disjoint bit fields is `+`.
 */
module Utf8 {
  import opened Common

  const MAX_TEXT_CODEPOINTS: nat := 1024
  const MAX_INPUT_CODEPOINTS: nat := 4096

  // ----- The standard

  predicate IsScalar(c: nat) {
    c < 0xd800 || 0xe000 <= c <= 0x10ffff
  }

  ghost predicate AllScalars(cps: seq<nat>) {
    forall i :: 0 <= i < |cps| ==> IsScalar(cps[i])
  }

  predicate IsTail(b: Byte) {
    0x80 <= b <= 0xbf
  }

  /** The productions UTF8-1 to UTF8-4 of section 4 of RFC 3629. */
  predicate IsUtf8Char(s: Bytes) {
    || (|s| == 1 && s[0] <= 0x7f)
    || (|s| == 2 && 0xc2 <= s[0] <= 0xdf && IsTail(s[1]))
    || (|s| == 3 && IsTail(s[2]) &&
        ((s[0] == 0xe0 && 0xa0 <= s[1] <= 0xbf) || (0xe1 <= s[0] <= 0xec && IsTail(s[1])) ||
         (s[0] == 0xed && 0x80 <= s[1] <= 0x9f) || (0xee <= s[0] <= 0xef && IsTail(s[1]))))
    || (|s| == 4 && IsTail(s[2]) && IsTail(s[3]) &&
        ((s[0] == 0xf0 && 0x90 <= s[1] <= 0xbf) || (0xf1 <= s[0] <= 0xf3 && IsTail(s[1])) ||
         (s[0] == 0xf4 && 0x80 <= s[1] <= 0x8f)))
  }

  /** `b & (m - 1)` for a power of two `m`: the payload bits of a byte. */
  function Low(b: Byte, m: nat): nat
    requires m > 0
  {
    b % m
  }

  /** The character number a UTF-8 character stands for (section 3 of RFC 3629, read backwards). */
  function CharNumber(s: Bytes): nat
    requires IsUtf8Char(s)
  {
    if |s| == 1 then s[0]
    else if |s| == 2 then Low(s[0], 32) * 64 + Low(s[1], 64)
    else if |s| == 3 then (Low(s[0], 16) * 64 + Low(s[1], 64)) * 64 + Low(s[2], 64)
    else ((Low(s[0], 8) * 64 + Low(s[1], 64)) * 64 + Low(s[2], 64)) * 64 + Low(s[3], 64)
  }

  /** How many bytes a character has, by its first byte; zero when no character starts with it. */
  function CharLength(lead: Byte): nat {
    if lead <= 0x7f then 1
    else if 0xc2 <= lead <= 0xdf then 2
    else if 0xe0 <= lead <= 0xef then 3
    else if 0xf0 <= lead <= 0xf4 then 4
    else 0
  }

  ghost predicate StartsWithChar(s: Bytes) {
    s != [] && 0 < CharLength(s[0]) <= |s| && IsUtf8Char(s[..CharLength(s[0])])
  }

  /** UTF8-octets of section 4: the character numbers of a well-formed string. */
  ghost function Parse(s: Bytes): Option<seq<nat>>
    decreases |s|
  {
    if s == [] then Some([])
    else if StartsWithChar(s) then
      var n := CharLength(s[0]);
      match Parse(s[n..])
      case Some(rest) => Some([CharNumber(s[..n])] + rest)
      case None => None
    else None
  }

  // ----- append_utf8_codepoint

  function EncodeCodepoint(c: nat): (s: Bytes)
    requires c <= 0x10ffff
    ensures 1 <= |s| <= 4
  {
    if c <= 0x7f then [c]
    else if c <= 0x7ff then [0xc0 + c / 64, 0x80 + c % 64]
    else if c <= 0xffff then [0xe0 + c / 64 / 64, 0x80 + c / 64 % 64, 0x80 + c % 64]
    else [0xf0 + c / 64 / 64 / 64, 0x80 + c / 64 / 64 % 64, 0x80 + c / 64 % 64, 0x80 + c % 64]
  }

  method AppendCodepoint(out: Bytes, c: nat) returns (extended: Bytes)
    requires c <= 0x10ffff
    ensures extended == out + EncodeCodepoint(c)
  {
    extended := out;
    if c <= 0x7f {
      extended := extended + [c];
    } else if c <= 0x7ff {
      extended := extended + [0xc0 + c / 64];
      extended := extended + [0x80 + c % 64];
    } else if c <= 0xffff {
      extended := extended + [0xe0 + c / 64 / 64];
      extended := extended + [0x80 + c / 64 % 64];
      extended := extended + [0x80 + c % 64];
    } else {
      extended := extended + [0xf0 + c / 64 / 64 / 64];
      extended := extended + [0x80 + c / 64 / 64 % 64];
      extended := extended + [0x80 + c / 64 % 64];
      extended := extended + [0x80 + c % 64];
    }
  }

  /** Every scalar value is written as one character of the grammar, and that character means it. */
  lemma EncodeIsUtf8Char(c: nat)
    requires IsScalar(c)
    ensures IsUtf8Char(EncodeCodepoint(c)) && CharNumber(EncodeCodepoint(c)) == c
    ensures |EncodeCodepoint(c)| == CharLength(EncodeCodepoint(c)[0])
  {
    if c > 0xffff {
      EncodeFour(c);
    } else if c > 0x7ff {
      EncodeThree(c);
    } else if c > 0x7f {
      EncodeTwo(c);
    }
  }

  lemma EncodeTwo(c: nat)
    requires 0x7f < c <= 0x7ff
    ensures IsUtf8Char(EncodeCodepoint(c)) && CharNumber(EncodeCodepoint(c)) == c
    ensures |EncodeCodepoint(c)| == 2 == CharLength(EncodeCodepoint(c)[0])
  {
    TwoBytes(c / 64, c % 64);
  }

  lemma EncodeThree(c: nat)
    requires 0x7ff < c <= 0xffff && IsScalar(c)
    ensures IsUtf8Char(EncodeCodepoint(c)) && CharNumber(EncodeCodepoint(c)) == c
    ensures |EncodeCodepoint(c)| == 3 == CharLength(EncodeCodepoint(c)[0])
  {
    var d := c / 64;
    ThreeBytes(d / 64, d % 64, c % 64);
  }

  lemma EncodeFour(c: nat)
    requires 0xffff < c <= 0x10ffff
    ensures IsUtf8Char(EncodeCodepoint(c)) && CharNumber(EncodeCodepoint(c)) == c
    ensures |EncodeCodepoint(c)| == 4 == CharLength(EncodeCodepoint(c)[0])
  {
    var d := c / 64;
    var e := d / 64;
    FourBytes(e / 64, e % 64, d % 64, c % 64);
  }

  lemma TwoBytes(d: nat, c0: nat)
    requires c0 < 64 && 0x80 <= 64 * d + c0 <= 0x7ff
    ensures var s: Bytes := [0xc0 + d, 0x80 + c0];
            IsUtf8Char(s) && CharNumber(s) == 64 * d + c0
  {
  }

  lemma ThreeBytes(e: nat, d0: nat, c0: nat)
    requires c0 < 64 && d0 < 64 && 0x800 <= 4096 * e + 64 * d0 + c0 <= 0xffff
    requires IsScalar(4096 * e + 64 * d0 + c0)
    ensures var s: Bytes := [0xe0 + e, 0x80 + d0, 0x80 + c0];
            IsUtf8Char(s) && CharNumber(s) == 4096 * e + 64 * d0 + c0
  {
  }

  lemma FourBytes(f: nat, e0: nat, d0: nat, c0: nat)
    requires c0 < 64 && d0 < 64 && e0 < 64 && 0x1_0000 <= 262144 * f + 4096 * e0 + 64 * d0 + c0 <= 0x10ffff
    ensures var s: Bytes := [0xf0 + f, 0x80 + e0, 0x80 + d0, 0x80 + c0];
            IsUtf8Char(s) && CharNumber(s) == 262144 * f + 4096 * e0 + 64 * d0 + c0
  {
    FourBytesAreAChar(f, e0, d0, c0);
    LowOfDigit(e0);
    LowOfDigit(d0);
    LowOfDigit(c0);
    assert Low(0xf0 + f, 8) == f;
    hide Low, IsUtf8Char;
  }

  lemma LowOfDigit(digit: nat)
    requires digit < 64
    ensures Low(0x80 + digit, 64) == digit
  {
  }

  lemma FourBytesAreAChar(f: nat, e0: nat, d0: nat, c0: nat)
    requires c0 < 64 && d0 < 64 && e0 < 64 && 0x1_0000 <= 262144 * f + 4096 * e0 + 64 * d0 + c0 <= 0x10ffff
    ensures f <= 4 && IsUtf8Char([0xf0 + f, 0x80 + e0, 0x80 + d0, 0x80 + c0])
  {
  }

  /** Every character of the grammar is the encoding of the scalar value it means. */
  lemma Utf8CharIsEncoded(s: Bytes)
    requires IsUtf8Char(s)
    ensures IsScalar(CharNumber(s)) && EncodeCodepoint(CharNumber(s)) == s
    ensures |s| == CharLength(s[0])
  {
    if |s| == 2 {
      Digits64(Low(s[0], 32), Low(s[1], 64));
    } else if |s| == 3 {
      ThreeByteCharIsEncoded(s);
    } else if |s| == 4 {
      FourByteCharIsEncoded(s);
    }
  }

  lemma Digits64(high: nat, low: nat)
    requires low < 64
    ensures (high * 64 + low) / 64 == high && (high * 64 + low) % 64 == low
  {
  }

  lemma LowOfTail(b: Byte)
    requires IsTail(b)
    ensures b == 0x80 + Low(b, 64) && Low(b, 64) < 64
  {
  }

  lemma EncodedThree(e: nat, d0: nat, c0: nat)
    requires d0 < 64 && c0 < 64 && 0x7ff < (e * 64 + d0) * 64 + c0 <= 0xffff
    ensures EncodeCodepoint((e * 64 + d0) * 64 + c0) == [0xe0 + e, 0x80 + d0, 0x80 + c0]
  {
    Digits64(e, d0);
    Digits64(e * 64 + d0, c0);
  }

  lemma ThreeByteRangeOf(s: Bytes)
    requires IsUtf8Char(s) && |s| == 3
    ensures 0x7ff < CharNumber(s) <= 0xffff && IsScalar(CharNumber(s)) && s[0] == 0xe0 + Low(s[0], 16)
  {
  }

  lemma ThreeByteTails(s: Bytes)
    requires IsUtf8Char(s) && |s| == 3
    ensures IsTail(s[1]) && IsTail(s[2])
  {
  }

  lemma ThreeByteCharIsEncoded(s: Bytes)
    requires IsUtf8Char(s) && |s| == 3
    ensures IsScalar(CharNumber(s)) && EncodeCodepoint(CharNumber(s)) == s
  {
    ThreeByteRangeOf(s);
    ThreeByteTails(s);
    hide IsUtf8Char, Low, EncodeCodepoint;
    LowOfTail(s[1]);
    LowOfTail(s[2]);
    EncodedThree(Low(s[0], 16), Low(s[1], 64), Low(s[2], 64));
  }

  lemma EncodedFour(f: nat, e0: nat, d0: nat, c0: nat)
    requires e0 < 64 && d0 < 64 && c0 < 64 && 0xffff < ((f * 64 + e0) * 64 + d0) * 64 + c0 <= 0x10ffff
    ensures EncodeCodepoint(((f * 64 + e0) * 64 + d0) * 64 + c0) == [0xf0 + f, 0x80 + e0, 0x80 + d0, 0x80 + c0]
  {
    Digits64(f, e0);
    Digits64(f * 64 + e0, d0);
    Digits64((f * 64 + e0) * 64 + d0, c0);
  }

  lemma FourByteRangeOf(s: Bytes)
    requires IsUtf8Char(s) && |s| == 4
    ensures 0xffff < CharNumber(s) <= 0x10ffff && s[0] == 0xf0 + Low(s[0], 8)
  {
  }

  lemma FourByteCharIsEncoded(s: Bytes)
    requires IsUtf8Char(s) && |s| == 4
    ensures IsScalar(CharNumber(s)) && EncodeCodepoint(CharNumber(s)) == s
  {
    FourByteRangeOf(s);
    FourByteTails(s);
    hide IsUtf8Char, Low, EncodeCodepoint;
    LowOfTail(s[1]);
    LowOfTail(s[2]);
    LowOfTail(s[3]);
    EncodedFour(Low(s[0], 8), Low(s[1], 64), Low(s[2], 64), Low(s[3], 64));
  }

  lemma FourByteTails(s: Bytes)
    requires IsUtf8Char(s) && |s| == 4
    ensures IsTail(s[1]) && IsTail(s[2]) && IsTail(s[3])
  {
  }

  ghost function EncodeAll(cps: seq<nat>): Bytes
    requires AllScalars(cps)
  {
    if cps == [] then [] else EncodeCodepoint(cps[0]) + EncodeAll(cps[1..])
  }

  lemma {:induction false} EncodeAllAppend(cps: seq<nat>, c: nat)
    requires AllScalars(cps) && IsScalar(c)
    ensures AllScalars(cps + [c])
    ensures EncodeAll(cps + [c]) == EncodeAll(cps) + EncodeCodepoint(c)
  {
    if cps == [] {
      assert cps + [c] == [c] && [c][1..] == [];
    } else {
      EncodeAllAppend(cps[1..], c);
      assert (cps + [c])[1..] == cps[1..] + [c];
    }
  }

  /** Parsing undoes encoding. */
  lemma {:induction false} ParseOfEncode(cps: seq<nat>)
    requires AllScalars(cps)
    ensures Parse(EncodeAll(cps)) == Some(cps)
  {
    if cps != [] {
      var first := EncodeCodepoint(cps[0]);
      var s := EncodeAll(cps);
      EncodeIsUtf8Char(cps[0]);
      ParseOfEncode(cps[1..]);
      assert s[0] == first[0] && s[..|first|] == first && s[|first|..] == EncodeAll(cps[1..]);
      assert [cps[0]] + cps[1..] == cps;
    }
  }

  /** Encoding undoes parsing: the grammar has no second spelling for any text. */
  lemma {:induction false} EncodeOfParse(s: Bytes)
    requires Parse(s).Some?
    ensures AllScalars(Parse(s).value) && EncodeAll(Parse(s).value) == s
    decreases |s|
  {
    hide CharNumber, EncodeCodepoint, IsUtf8Char;
    if s != [] {
      var n := CharLength(s[0]);
      Utf8CharIsEncoded(s[..n]);
      EncodeOfParse(s[n..]);
      assert Parse(s).value[1..] == Parse(s[n..]).value;
      assert s == s[..n] + s[n..];
    }
  }

  // ----- decode_utf8

  datatype DecodeError = InvalidUtf8 | TooManyCodepoints

  /** What decode_utf8 appends for one code point: a surrogate pair when WideChar has two bytes. */
  function WidenCodepoint(c: nat, twoByte: bool): (units: seq<nat>)
    requires c <= 0x10ffff
  {
    if twoByte && c > 0xffff then
      [0xd800 + (c - 0x1_0000) / 1024, 0xdc00 + (c - 0x1_0000) % 1024]
    else [c]
  }

  ghost function Widen(cps: seq<nat>, twoByte: bool): seq<nat>
    requires AllScalars(cps)
  {
    if cps == [] then [] else WidenCodepoint(cps[0], twoByte) + Widen(cps[1..], twoByte)
  }

  lemma {:induction false} WidenAppend(cps: seq<nat>, c: nat, twoByte: bool)
    requires AllScalars(cps) && IsScalar(c)
    ensures AllScalars(cps + [c])
    ensures Widen(cps + [c], twoByte) == Widen(cps, twoByte) + WidenCodepoint(c, twoByte)
  {
    if cps == [] {
      assert cps + [c] == [c] && [c][1..] == [];
    } else {
      WidenAppend(cps[1..], c, twoByte);
      assert (cps + [c])[1..] == cps[1..] + [c];
    }
  }

  /** What a read through a pointer into the C string `s` yields. */
  function At(s: Bytes, i: nat): Byte
    requires i <= |s|
  {
    if i < |s| then s[i] else 0
  }

  /** The value accumulated after the lead byte and `k` continuation bytes. */
  function Accumulated(s: Bytes, k: nat): (value: nat)
    requires k < |s| && k <= 3 && CharLength(s[0]) > k
    decreases k
  {
    if k > 0 then Accumulated(s, k - 1) * 64 + Low(s[k], 64)
    else if s[0] <= 0x7f then s[0]
    else if CharLength(s[0]) == 2 then Low(s[0], 32)
    else if CharLength(s[0]) == 3 then Low(s[0], 16)
    else Low(s[0], 8)
  }

  /** The tests made after the continuation bytes. */
  predicate InRange(length: nat, codepoint: nat) {
    !((length == 3 && codepoint < 0x800) || (length == 4 && codepoint < 0x1_0000) ||
      0xd800 <= codepoint <= 0xdfff || codepoint > 0x10ffff)
  }

  /** Those tests, made on the accumulated value, are the byte ranges of the grammar. */
  lemma RangeTestsAreTheGrammar(s: Bytes)
    requires s != [] && CharLength(s[0]) == |s|
    requires forall i :: 1 <= i < |s| ==> IsTail(s[i])
    ensures InRange(|s|, Accumulated(s, |s| - 1)) <==> IsUtf8Char(s)
    ensures IsUtf8Char(s) ==> CharNumber(s) == Accumulated(s, |s| - 1)
  {
    if |s| == 3 {
      ThreeByteRange(s);
    } else if |s| == 4 {
      FourByteRange(s);
    }
  }

  lemma ThreeByteRange(s: Bytes)
    requires |s| == 3 && CharLength(s[0]) == 3 && IsTail(s[1]) && IsTail(s[2])
    ensures InRange(3, Accumulated(s, 2)) <==> IsUtf8Char(s)
    ensures IsUtf8Char(s) ==> CharNumber(s) == Accumulated(s, 2)
  {
    assert Accumulated(s, 2) == (Accumulated(s, 0) * 64 + Low(s[1], 64)) * 64 + Low(s[2], 64);
  }

  lemma FourByteRange(s: Bytes)
    requires |s| == 4 && CharLength(s[0]) == 4 && IsTail(s[1]) && IsTail(s[2]) && IsTail(s[3])
    ensures InRange(4, Accumulated(s, 3)) <==> IsUtf8Char(s)
    ensures IsUtf8Char(s) ==> CharNumber(s) == Accumulated(s, 3)
  {
    assert Accumulated(s, 2) == (Accumulated(s, 0) * 64 + Low(s[1], 64)) * 64 + Low(s[2], 64);
    assert Accumulated(s, 3) == Accumulated(s, 2) * 64 + Low(s[3], 64);
    FourByteCharRange(s);
    hide IsUtf8Char, InRange;
    RangeOfFour(Low(s[0], 8), Low(s[1], 64), Low(s[2], 64), Low(s[3], 64));
  }

  /** The range of four-byte characters, by their first two digits. */
  predicate FourDigitsFit(f: nat, e0: nat) {
    f <= 4 && (f == 0 ==> e0 >= 16) && (f == 4 ==> e0 < 16)
  }

  lemma RangeOfFour(f: nat, e0: nat, d0: nat, c0: nat)
    requires f < 8 && e0 < 64 && d0 < 64 && c0 < 64
    ensures InRange(4, ((f * 64 + e0) * 64 + d0) * 64 + c0) <==> FourDigitsFit(f, e0)
  {
  }

  lemma FourByteCharRange(s: Bytes)
    requires |s| == 4 && CharLength(s[0]) == 4 && IsTail(s[1]) && IsTail(s[2]) && IsTail(s[3])
    ensures IsUtf8Char(s) <==> FourDigitsFit(Low(s[0], 8), Low(s[1], 64))
  {
    LowOfTail(s[1]);
    assert Low(s[0], 8) == s[0] - 0xf0;
  }

  ghost function Prepend(cps: seq<nat>, rest: Option<seq<nat>>): Option<seq<nat>> {
    match rest
    case Some(more) => Some(cps + more)
    case None => None
  }

  /** No text with the given code points in front parses after a failed character. */
  lemma NotACharacter(s: Bytes)
    requires s != [] && !StartsWithChar(s)
    ensures Parse(s) == None
  {
  }

  lemma NotATail(s: Bytes, i: nat)
    requires s != [] && 1 <= i < CharLength(s[0]) && (i < |s| ==> !IsTail(s[i]))
    ensures !StartsWithChar(s)
  {
  }

  ghost predicate IsCString(s: Bytes) {
    forall i :: 0 <= i < |s| ==> s[i] != 0
  }

  /** The inner loop: the continuation bytes after a lead byte, added to its payload. */
  method ReadContinuation(input: Bytes, start: nat, payload: nat, continuation: nat) returns (codepoint: Option<nat>)
    requires IsCString(input) && start < |input| && continuation <= 3
    requires CharLength(input[start]) == continuation + 1 && payload == Accumulated(input[start..], 0)
    ensures codepoint.Some? <==>
            start + continuation < |input| && forall j :: 1 <= j <= continuation ==> IsTail(input[start..][j])
    ensures codepoint.Some? ==> codepoint.value == Accumulated(input[start..], continuation)
  {
    ghost var s := input[start..];
    var value: nat := payload;
    var cursor := start + 1;
    var i: nat := 0;
    while i < continuation
      invariant i <= continuation && cursor == start + 1 + i <= |input|
      invariant forall j :: 1 <= j <= i ==> IsTail(s[j])
      invariant value == Accumulated(s, i)
    {
      var next := At(input, cursor);
      if !IsTail(next) {
        assert cursor < |input| ==> s[i + 1] == next && !IsTail(s[i + 1]);
        return None;
      }
      cursor := cursor + 1;
      assert s[i + 1] == next;
      value := value * 64 + Low(next, 64);
      i := i + 1;
    }
    return Some(value);
  }

  /** One turn of the outer loop of decode_utf8: the next code point and the new cursor. */
  method DecodeOne(input: Bytes, start: nat) returns (r: Result<(nat, nat), DecodeError>)
    requires IsCString(input) && start < |input|
    ensures r.Ok? <==> StartsWithChar(input[start..])
    ensures r.Ok? ==>
              var n := CharLength(input[start]);
              r.value == (CharNumber(input[start..][..n]), start + n) && start < start + n <= |input|
    ensures r.Err? ==> r.error == InvalidUtf8
  {
    hide IsUtf8Char, CharNumber, IsCString;
    ghost var s := input[start..];
    var payload: nat := 0;
    var continuation: nat := 0;
    var lead := At(input, start);
    if lead <= 0x7f {
      payload := lead;
    } else if 0xc2 <= lead <= 0xdf {
      payload := Low(lead, 32);
      continuation := 1;
    } else if 0xe0 <= lead <= 0xef {
      payload := Low(lead, 16);
      continuation := 2;
    } else if 0xf0 <= lead <= 0xf4 {
      payload := Low(lead, 8);
      continuation := 3;
    } else {
      return Err(InvalidUtf8);
    }
    var read := ReadContinuation(input, start, payload, continuation);
    ContinuationDecides(s, continuation);
    if read.None? {
      return Err(InvalidUtf8);
    }
    var codepoint := read.value;
    if (continuation == 2 && codepoint < 0x800) || (continuation == 3 && codepoint < 0x1_0000)
       || 0xd800 <= codepoint <= 0xdfff || codepoint > 0x10ffff {
      return Err(InvalidUtf8);
    }
    return Ok((codepoint, start + continuation + 1));
  }

  /** A character starts here exactly when the continuation bytes are there and the value passes the range tests. */
  lemma ContinuationDecides(s: Bytes, continuation: nat)
    requires s != [] && continuation <= 3 && CharLength(s[0]) == continuation + 1
    ensures StartsWithChar(s) <==>
            && continuation < |s| && (forall j :: 1 <= j <= continuation ==> IsTail(s[j]))
            && InRange(continuation + 1, Accumulated(s, continuation))
    ensures StartsWithChar(s) ==> CharNumber(s[..continuation + 1]) == Accumulated(s, continuation)
  {
    hide CharNumber, InRange, IsUtf8Char, Accumulated;
    if continuation < |s| {
      var c := s[..continuation + 1];
      AccumulatedPrefix(s, continuation);
      if forall j :: 1 <= j <= continuation ==> IsTail(s[j]) {
        RangeTestsAreTheGrammar(c);
      } else {
        var j :| 1 <= j <= continuation && !IsTail(s[j]);
        NotATail(s, j);
      }
    }
  }

  lemma {:induction false} AccumulatedPrefix(s: Bytes, n: nat)
    requires n < |s| && n <= 3 && CharLength(s[0]) > n
    ensures forall k :: 0 <= k <= n ==> Accumulated(s[..n + 1], k) == Accumulated(s, k)
  {
    var c := s[..n + 1];
    assert Accumulated(c, 0) == Accumulated(s, 0);
    if n >= 1 { assert Accumulated(c, 1) == Accumulated(s, 1); }
    if n >= 2 { assert Accumulated(c, 2) == Accumulated(s, 2); }
    if n >= 3 { assert Accumulated(c, 3) == Accumulated(s, 3); }
  }

  /**
   decode_utf8. It accepts exactly the well-formed strings with at most 4096
   characters, and its output is their UTF-16 or UTF-32 form with a final zero.
   */
  method DecodeUtf8(input: Bytes, twoByte: bool) returns (r: Result<seq<nat>, DecodeError>)
    requires IsCString(input)
    ensures r.Ok? <==> Parse(input).Some? && |Parse(input).value| <= MAX_INPUT_CODEPOINTS
    ensures r.Ok? ==> AllScalars(Parse(input).value) && r.value == Widen(Parse(input).value, twoByte) + [0]
    ensures r == Err(InvalidUtf8) ==> Parse(input) == None
    ensures r == Err(TooManyCodepoints) ==>
              exists k | 0 <= k <= |input| ::
                Parse(input[..k]).Some? && |Parse(input[..k]).value| == MAX_INPUT_CODEPOINTS + 1
  {
    hide CharNumber, IsUtf8Char, EncodeCodepoint, StartsWithChar, Decoding, Widen;
    var output: seq<nat> := [];
    var cursor := 0;
    var codepoints := 0;
    ghost var cps: seq<nat> := [];
    NothingDecoded(input, twoByte);
    while At(input, cursor) != 0
      invariant cursor <= |input| && codepoints == |cps| <= MAX_INPUT_CODEPOINTS
      invariant Decoding(input, cursor, cps, output, twoByte)
      decreases |input| - cursor
    {
      var next := DecodeOne(input, cursor);
      if next.Err? {
        BadCharacter(input, cursor, cps, output, twoByte);
        return Err(next.error);
      }
      var codepoint := next.value.0;
      AcceptCharacter(input, cursor, cps, output, twoByte);
      cps := cps + [codepoint];
      cursor := next.value.1;
      codepoints := codepoints + 1;
      if codepoints > MAX_INPUT_CODEPOINTS {
        DecodedPrefix(input, cursor, cps, output + WidenCodepoint(codepoint, twoByte), twoByte);
        return Err(TooManyCodepoints);
      }
      ghost var before := output;
      if twoByte && codepoint > 0xffff {
        output := output + [0xd800 + (codepoint - 0x1_0000) / 1024];
        output := output + [0xdc00 + (codepoint - 0x1_0000) % 1024];
      } else {
        output := output + [codepoint];
      }
      assert output == before + WidenCodepoint(codepoint, twoByte);
    }
    AllDecoded(input, cps, output, twoByte);
    return Ok(output + [0]);
  }

  /** What decode_utf8 has consumed and produced. */
  ghost predicate Decoding(input: Bytes, cursor: nat, cps: seq<nat>, output: seq<nat>, twoByte: bool) {
    && cursor <= |input| && AllScalars(cps) && EncodeAll(cps) == input[..cursor]
    && output == Widen(cps, twoByte)
    && Parse(input) == Prepend(cps, Parse(input[cursor..]))
  }

  lemma NothingDecoded(input: Bytes, twoByte: bool)
    ensures Decoding(input, 0, [], [], twoByte)
  {
    hide StartsWithChar, CharNumber;
    assert input[0..] == input;
    if Parse(input).Some? {
      assert [] + Parse(input).value == Parse(input).value;
    }
  }

  lemma BadCharacter(input: Bytes, cursor: nat, cps: seq<nat>, output: seq<nat>, twoByte: bool)
    requires Decoding(input, cursor, cps, output, twoByte) && cursor < |input| && !StartsWithChar(input[cursor..])
    ensures Parse(input) == None
  {
    hide StartsWithChar, EncodeAll, Widen;
    NotACharacter(input[cursor..]);
  }

  lemma DecodedPrefix(input: Bytes, cursor: nat, cps: seq<nat>, output: seq<nat>, twoByte: bool)
    requires Decoding(input, cursor, cps, output, twoByte)
    ensures Parse(input[..cursor]) == Some(cps)
    ensures Parse(input).Some? ==> |Parse(input).value| >= |cps|
  {
    hide StartsWithChar, EncodeAll, Widen;
    ParseOfEncode(cps);
  }

  lemma AllDecoded(input: Bytes, cps: seq<nat>, output: seq<nat>, twoByte: bool)
    requires Decoding(input, |input|, cps, output, twoByte)
    ensures Parse(input) == Some(cps) && AllScalars(cps) && output == Widen(cps, twoByte)
  {
    hide StartsWithChar, EncodeAll, Widen;
    assert input[|input|..] == [] && cps + [] == cps;
  }

  lemma AcceptCharacter(input: Bytes, cursor: nat, cps: seq<nat>, output: seq<nat>, twoByte: bool)
    requires Decoding(input, cursor, cps, output, twoByte) && cursor < |input| && StartsWithChar(input[cursor..])
    ensures var n, c := CharLength(input[cursor]), CharNumber(input[cursor..][..CharLength(input[cursor])]);
            c <= 0x10ffff && Decoding(input, cursor + n, cps + [c], output + WidenCodepoint(c, twoByte), twoByte)
  {
    hide CharNumber, IsUtf8Char, EncodeCodepoint, EncodeAll, Widen, Parse, Prepend;
    var s := input[cursor..];
    var n := CharLength(s[0]);
    assert input[..cursor + n] == input[..cursor] + s[..n] && s[n..] == input[cursor + n..];
    AppendCharacter(cps, s[..n], twoByte);
    PrependCharacter(s, cps);
  }

  lemma AppendCharacter(cps: seq<nat>, character: Bytes, twoByte: bool)
    requires AllScalars(cps) && IsUtf8Char(character)
    ensures var more := cps + [CharNumber(character)];
            && AllScalars(more) && EncodeAll(more) == EncodeAll(cps) + character
            && Widen(more, twoByte) == Widen(cps, twoByte) + WidenCodepoint(more[|cps|], twoByte)
  {
    Utf8CharIsEncoded(character);
    EncodeAllAppend(cps, CharNumber(character));
    WidenAppend(cps, CharNumber(character), twoByte);
  }

  lemma ParseOfCharacter(s: Bytes)
    requires StartsWithChar(s)
    ensures var n := CharLength(s[0]);
            Parse(s) == Prepend([CharNumber(s[..n])], Parse(s[n..]))
  {
    hide CharNumber, IsUtf8Char;
  }

  lemma PrependTwice(cps: seq<nat>, c: nat, rest: Option<seq<nat>>)
    ensures Prepend(cps, Prepend([c], rest)) == Prepend(cps + [c], rest)
  {
    if rest.Some? {
      assert cps + ([c] + rest.value) == cps + [c] + rest.value;
    }
  }

  lemma PrependCharacter(s: Bytes, cps: seq<nat>)
    requires StartsWithChar(s)
    ensures var n := CharLength(s[0]);
            Prepend(cps, Parse(s)) == Prepend(cps + [CharNumber(s[..n])], Parse(s[n..]))
  {
    hide CharNumber, IsUtf8Char, Parse, Prepend;
    var n := CharLength(s[0]);
    ParseOfCharacter(s);
    PrependTwice(cps, CharNumber(s[..n]), Parse(s[n..]));
  }

  // ----- unicode_to_utf8

  predicate IsHighSurrogate(u: nat) { 0xd800 <= u <= 0xdbff }
  predicate IsLowSurrogate(u: nat) { 0xdc00 <= u <= 0xdfff }

  /** The code points read from a UnicodeString, unpaired surrogates replaced. */
  ghost function Codepoints(units: seq<nat>): (cps: seq<nat>)
    ensures AllScalars(cps)
    decreases |units|
  {
    if units == [] then []
    else if IsHighSurrogate(units[0]) && |units| > 1 && IsLowSurrogate(units[1]) then
      [0x1_0000 + (units[0] - 0xd800) * 1024 + (units[1] - 0xdc00)] + Codepoints(units[2..])
    else if 0xd800 <= units[0] <= 0xdfff || units[0] > 0x10ffff then
      [0xfffd] + Codepoints(units[1..])
    else
      [units[0]] + Codepoints(units[1..])
  }

  /** One turn of the loop: the code point at `i` and the index of the next one. */
  method ReadCodepoint(value: seq<nat>, i: nat) returns (codepoint: nat, next: nat)
    requires i < |value|
    ensures i < next <= |value| && IsScalar(codepoint)
    ensures Codepoints(value[i..]) == [codepoint] + Codepoints(value[next..])
  {
    codepoint := value[i];
    next := i + 1;
    ghost var rest := value[i..];
    assert rest[1..] == value[i + 1..];
    if IsHighSurrogate(codepoint) && i + 1 < |value| {
      var low := value[i + 1];
      assert rest[1] == low && rest[2..] == value[i + 2..];
      if IsLowSurrogate(low) {
        codepoint := 0x1_0000 + (codepoint - 0xd800) * 1024 + (low - 0xdc00);
        next := i + 2;
      }
    }
    if 0xd800 <= codepoint <= 0xdfff || codepoint > 0x10ffff {
      codepoint := 0xfffd;
    }
  }

  /** The code points that fit the limit of unicode_to_utf8. */
  ghost function Emitted(value: seq<nat>): (cps: seq<nat>)
    ensures AllScalars(cps)
  {
    var cps := Codepoints(value);
    cps[..Min(|cps|, MAX_TEXT_CODEPOINTS)]
  }

  /** Where the loop stops: `done` code points written, the rest starting at `i`. */
  lemma LoopEnd(value: seq<nat>, i: nat, done: seq<nat>)
    requires i <= |value| && Codepoints(value) == done + Codepoints(value[i..])
    requires |done| <= MAX_TEXT_CODEPOINTS && (i == |value| || |done| == MAX_TEXT_CODEPOINTS)
    ensures Emitted(value) == done && (i < |value| <==> |Codepoints(value)| > MAX_TEXT_CODEPOINTS)
  {
    if i == |value| {
      assert Codepoints(value[i..]) == [];
    } else {
      assert |Codepoints(value[i..])| > 0;
    }
  }

  lemma LoopStep(value: seq<nat>, i: nat, next: nat, done: seq<nat>, codepoint: nat)
    requires i < next <= |value| && Codepoints(value) == done + Codepoints(value[i..])
    requires Codepoints(value[i..]) == [codepoint] + Codepoints(value[next..])
    ensures Codepoints(value) == (done + [codepoint]) + Codepoints(value[next..])
  {
  }

  /** unicode_to_utf8: at most 1024 code points, always well-formed, and it says when it stopped early. */
  method UnicodeToUtf8(value: seq<nat>) returns (out: Bytes, truncated: bool)
    ensures out == EncodeAll(Emitted(value))
    ensures truncated == (|Codepoints(value)| > MAX_TEXT_CODEPOINTS)
  {
    out := [];
    var emitted := 0;
    truncated := false;
    ghost var done: seq<nat> := [];
    var i := 0;
    assert value[0..] == value;
    while i < |value|
      invariant 0 <= i <= |value| && emitted == |done| <= MAX_TEXT_CODEPOINTS && !truncated
      invariant AllScalars(done) && out == EncodeAll(done)
      invariant Codepoints(value) == done + Codepoints(value[i..])
    {
      if emitted >= MAX_TEXT_CODEPOINTS {
        truncated := true;
        break;
      }
      var codepoint, next := ReadCodepoint(value, i);
      EncodeAllAppend(done, codepoint);
      LoopStep(value, i, next, done, codepoint);
      done := done + [codepoint];
      out := AppendCodepoint(out, codepoint);
      emitted := emitted + 1;
      i := next;
    }
    LoopEnd(value, i, done);
  }
}
