/**
 decode_utf8 and unicode_to_utf8 (WebAssembly/src/wasm_agent_api.cpp) one
 after the other, in both directions.
 */
module Utf8RoundTrip {
  import opened Common
  import opened Utf8

  /** Reading back what decode_utf8 stored gives the code points, for both sizes of WideChar. */
  lemma {:induction false} CodepointsOfWiden(cps: seq<nat>, twoByte: bool)
    requires AllScalars(cps)
    ensures Codepoints(Widen(cps, twoByte)) == cps
  {
    if cps != [] {
      var first, rest := WidenCodepoint(cps[0], twoByte), Widen(cps[1..], twoByte);
      CodepointsOfWiden(cps[1..], twoByte);
      assert Widen(cps, twoByte)[|first|..] == rest;
    }
  }

  lemma EmittedWhole(units: seq<nat>)
    ensures Emitted(units) == Codepoints(units) <==> |Codepoints(units)| <= MAX_TEXT_CODEPOINTS
  {
  }

  /**
   decode_utf8 followed by unicode_to_utf8 gives the original bytes exactly
   when there are at most 1024 characters.
   */
  lemma DecodeThenEncode(input: Bytes, twoByte: bool)
    requires Parse(input).Some?
    ensures AllScalars(Parse(input).value)
    ensures EncodeAll(Emitted(Widen(Parse(input).value, twoByte))) == input
            <==> |Parse(input).value| <= MAX_TEXT_CODEPOINTS
  {
    hide Codepoints, Widen, EncodeAll, Emitted;
    EncodeOfParse(input);
    EmittedWhole(Widen(Parse(input).value, twoByte));
    CodepointsOfWiden(Parse(input).value, twoByte);
    ParseOfEncode(Emitted(Widen(Parse(input).value, twoByte)));
  }

  // ----- The other way round

  /** The C string that starts with these bytes. */
  ghost function CString(s: Bytes): (t: Bytes)
    ensures IsCString(t)
  {
    if s == [] || s[0] == 0 then [] else [s[0]] + CString(s[1..])
  }

  /** What decode_utf8 stores, without its final zero, of what unicode_to_utf8 wrote. */
  ghost function Returned(units: seq<nat>, twoByte: bool): Option<seq<nat>> {
    match Parse(CString(EncodeAll(Emitted(units))))
    case None => None
    case Some(cps) => if AllScalars(cps) then Some(Widen(cps, twoByte)) else None
  }

  predicate NulFree(units: seq<nat>) {
    0 !in units
  }

  ghost function BeforeNul(cps: seq<nat>): (prefix: seq<nat>)
    ensures |prefix| <= |cps| && prefix == cps[..|prefix|]
    ensures NulFree(prefix) && (NulFree(cps) <==> prefix == cps)
  {
    if cps == [] || cps[0] == 0 then [] else [cps[0]] + BeforeNul(cps[1..])
  }

  lemma CharacterIsCString(c: nat, rest: Bytes)
    requires 0 < c <= 0x10ffff
    ensures CString(EncodeCodepoint(c) + rest) == EncodeCodepoint(c) + CString(rest)
  {
    var s := EncodeCodepoint(c);
    assert IsCString(s);
    CStringOfAppend(s, rest);
  }

  lemma {:induction false} CStringOfAppend(s: Bytes, rest: Bytes)
    requires IsCString(s)
    ensures CString(s + rest) == s + CString(rest)
  {
    if s == [] {
      assert s + rest == rest && s + CString(rest) == CString(rest);
    } else {
      assert (s + rest)[1..] == s[1..] + rest;
      CStringOfAppend(s[1..], rest);
    }
  }

  /** Only the code point 0 is encoded with a zero byte, so the C string ends where the text has its first NUL. */
  lemma {:induction false} CStringOfEncode(cps: seq<nat>)
    requires AllScalars(cps)
    ensures AllScalars(BeforeNul(cps)) && CString(EncodeAll(cps)) == EncodeAll(BeforeNul(cps))
  {
    hide EncodeCodepoint;
    if cps != [] {
      CStringOfEncode(cps[1..]);
      if cps[0] == 0 {
        ZeroEncodes();
        assert CString([0] + EncodeAll(cps[1..])) == [];
      } else {
        CharacterIsCString(cps[0], EncodeAll(cps[1..]));
        assert BeforeNul(cps)[1..] == BeforeNul(cps[1..]);
      }
    }
  }

  lemma ZeroEncodes()
    ensures EncodeCodepoint(0) == [0]
  {
  }

  lemma ReturnedIsWidened(units: seq<nat>, twoByte: bool)
    ensures AllScalars(BeforeNul(Emitted(units)))
    ensures Returned(units, twoByte) == Some(Widen(BeforeNul(Emitted(units)), twoByte))
  {
    hide EncodeAll, Emitted, Parse, CString, Widen, BeforeNul;
    CStringOfEncode(Emitted(units));
    ParseOfEncode(BeforeNul(Emitted(units)));
  }

  lemma {:induction false} WidenKeepsNulFree(cps: seq<nat>, twoByte: bool)
    requires AllScalars(cps) && NulFree(cps)
    ensures NulFree(Widen(cps, twoByte))
  {
    if cps != [] {
      WidenKeepsNulFree(cps[1..], twoByte);
    }
  }

  lemma {:induction false} CodepointsKeepNulFree(units: seq<nat>)
    requires NulFree(units)
    ensures NulFree(Codepoints(units))
    decreases |units|
  {
    if units != [] {
      CodepointsKeepNulFree(units[1..]);
      if |units| > 1 {
        CodepointsKeepNulFree(units[2..]);
      }
    }
  }

  /** Text comes back exactly when nothing was replaced, cut at the limit or cut at a NUL. */
  lemma ReturnsExactly(units: seq<nat>, twoByte: bool)
    ensures Returned(units, twoByte) == Some(units)
            <==> && Widen(Codepoints(units), twoByte) == units
                 && NulFree(units) && |Codepoints(units)| <= MAX_TEXT_CODEPOINTS
  {
    hide Codepoints, Widen, Returned, NulFree;
    var sent := BeforeNul(Emitted(units));
    EmittedWhole(units);
    ReturnedIsWidened(units, twoByte);
    if Widen(sent, twoByte) == units {
      CodepointsOfWiden(sent, twoByte);
      WidenKeepsNulFree(sent, twoByte);
    }
    if NulFree(units) {
      CodepointsKeepNulFree(units);
    }
  }

  // ----- 16-bit WideChar

  /** UTF-16 in which every surrogate has its partner. */
  ghost predicate WellFormedUtf16(units: seq<nat>)
    decreases |units|
  {
    units == [] ||
    (IsHighSurrogate(units[0]) && |units| > 1 && IsLowSurrogate(units[1]) && WellFormedUtf16(units[2..])) ||
    (units[0] <= 0xffff && IsScalar(units[0]) && WellFormedUtf16(units[1..]))
  }

  /** What the first code point of a UTF-16 string widens to, and when that is how it was spelled. */
  lemma WidenFirst(units: seq<nat>) returns (n: nat, c: nat)
    requires units != [] && forall i :: 0 <= i < |units| ==> units[i] <= 0xffff
    ensures 1 <= n <= |units| && IsScalar(c)
    ensures Codepoints(units) == [c] + Codepoints(units[n..])
    ensures |WidenCodepoint(c, true)| == n
    ensures WellFormedUtf16(units) <==> WidenCodepoint(c, true) == units[..n] && WellFormedUtf16(units[n..])
  {
    if IsHighSurrogate(units[0]) && |units| > 1 && IsLowSurrogate(units[1]) {
      n := 2;
      c := 0x1_0000 + (units[0] - 0xd800) * 1024 + (units[1] - 0xdc00);
      assert (c - 0x1_0000) / 1024 == units[0] - 0xd800 && (c - 0x1_0000) % 1024 == units[1] - 0xdc00;
    } else {
      n := 1;
      c := if 0xd800 <= units[0] <= 0xdfff then 0xfffd else units[0];
      assert units[..1] == [units[0]];
    }
  }

  lemma {:induction false} RespelledExactlyWhenWellFormed(units: seq<nat>)
    requires forall i :: 0 <= i < |units| ==> units[i] <= 0xffff
    ensures Widen(Codepoints(units), true) == units <==> WellFormedUtf16(units)
    decreases |units|
  {
    if units != [] {
      var n, c := WidenFirst(units);
      var first, rest := WidenCodepoint(c, true), Widen(Codepoints(units[n..]), true);
      RespelledExactlyWhenWellFormed(units[n..]);
      assert Codepoints(units)[1..] == Codepoints(units[n..]);
      assert Widen(Codepoints(units), true) == first + rest;
      assert units == units[..n] + units[n..];
      assert first + rest == units <==> first == units[..n] && rest == units[n..] by {
        assert (first + rest)[..n] == first && (first + rest)[n..] == rest;
      }
    }
  }

  /**
   The other way round, 16-bit text survives exactly when no surrogate is
   unpaired, no NUL is in it and it has at most 1024 code points.
   */
  lemma EncodeThenDecode(units: seq<nat>)
    requires forall i :: 0 <= i < |units| ==> units[i] <= 0xffff
    ensures Returned(units, true) == Some(units)
            <==> WellFormedUtf16(units) && NulFree(units) && |Codepoints(units)| <= MAX_TEXT_CODEPOINTS
  {
    hide Codepoints, Widen, Returned, NulFree, WellFormedUtf16;
    ReturnsExactly(units, true);
    RespelledExactlyWhenWellFormed(units);
  }

  // ----- 32-bit WideChar

  lemma {:induction false} WidenFour(cps: seq<nat>)
    requires AllScalars(cps)
    ensures Widen(cps, false) == cps
  {
    if cps != [] {
      WidenFour(cps[1..]);
    }
  }

  /** 32-bit text survives exactly when it consists of scalar values other than NUL, at most 1024 of them. */
  lemma EncodeThenDecodeWide(units: seq<nat>)
    ensures Returned(units, false) == Some(units)
            <==> AllScalars(units) && NulFree(units) && |units| <= MAX_TEXT_CODEPOINTS
  {
    hide Codepoints, Widen, Returned, NulFree;
    ReturnsExactly(units, false);
    WidenFour(Codepoints(units));
    if AllScalars(units) {
      WidenFour(units);
      CodepointsOfWiden(units, false);
    }
  }

  // ----- Texts that do not survive

  function Repeated(c: nat, n: nat): (units: seq<nat>)
    ensures |units| == n && forall k :: 0 <= k < n ==> units[k] == c
  {
    seq(n, k => c)
  }

  /** What is no scalar value by itself is sent as U+FFFD. */
  lemma BadUnitsAreReplaced(unit: nat)
    requires 0xd800 <= unit <= 0xdfff || unit > 0x10ffff
    ensures EncodeAll(Emitted([unit])) == [0xef, 0xbf, 0xbd]
  {
    assert [unit][1..] == [] && Codepoints([]) == [];
    assert Codepoints([unit]) == [0xfffd];
    assert Emitted([unit]) == [0xfffd];
    assert [0xfffd][1..] == [] && EncodeAll([]) == [];
    assert EncodeCodepoint(0xfffd) == [0xef, 0xbf, 0xbd];
  }

  /** An unpaired surrogate, a NUL, a pair of surrogates in 32-bit units, and one letter too many. */
  lemma TextsThatDoNotSurvive(twoByte: bool)
    ensures Returned([0xd83d], twoByte) != Some([0xd83d])
    ensures Returned([0x61, 0, 0x62], twoByte) != Some([0x61, 0, 0x62])
    ensures Returned([0xd83d, 0xde00], twoByte) == Some([0xd83d, 0xde00]) <==> twoByte
    ensures Returned([0x11_0000], twoByte) != Some([0x11_0000])
    ensures Returned(Repeated(0x61, 1024), twoByte) == Some(Repeated(0x61, 1024))
    ensures Returned(Repeated(0x61, 1025), twoByte) != Some(Repeated(0x61, 1025))
  {
    PlainText(Repeated(0x61, 1024), twoByte);
    PlainText(Repeated(0x61, 1025), twoByte);
    ReturnsExactly([0x61, 0, 0x62], twoByte);
    assert [0x61, 0, 0x62][1] == 0;
    UnpairedSurrogate(twoByte);
    BeyondUnicode(twoByte);
    Emoji(twoByte);
  }

  /** Characters that are one unit in every encoding. */
  lemma PlainText(units: seq<nat>, twoByte: bool)
    requires forall k :: 0 <= k < |units| ==> units[k] == 0x61
    ensures Returned(units, twoByte) == Some(units) <==> |units| <= MAX_TEXT_CODEPOINTS
  {
    hide Returned, Codepoints, Widen;
    WidenFour(units);
    CodepointsOfWiden(units, false);
    ReturnsExactly(units, twoByte);
    WidenPlain(units, twoByte);
  }

  lemma {:induction false} WidenPlain(units: seq<nat>, twoByte: bool)
    requires forall k :: 0 <= k < |units| ==> units[k] == 0x61
    ensures Widen(units, twoByte) == units
  {
    if units != [] {
      WidenPlain(units[1..], twoByte);
    }
  }

  lemma UnpairedSurrogate(twoByte: bool)
    ensures Returned([0xd83d], twoByte) != Some([0xd83d])
  {
    hide Returned;
    var units: seq<nat> := [0xd83d];
    ReturnsExactly(units, twoByte);
    assert Codepoints(units)[0] == 0xfffd;
    assert Widen(Codepoints(units), twoByte)[0] == 0xfffd;
  }

  lemma BeyondUnicode(twoByte: bool)
    ensures Returned([0x11_0000], twoByte) != Some([0x11_0000])
  {
    hide Returned;
    var units: seq<nat> := [0x11_0000];
    ReturnsExactly(units, twoByte);
    assert Codepoints(units)[0] == 0xfffd;
    assert Widen(Codepoints(units), twoByte)[0] == 0xfffd;
  }

  lemma Emoji(twoByte: bool)
    ensures Returned([0xd83d, 0xde00], twoByte) == Some([0xd83d, 0xde00]) <==> twoByte
  {
    hide Returned, Codepoints;
    var units: seq<nat> := [0xd83d, 0xde00];
    if twoByte {
      EncodeThenDecode(units);
      EmojiIsOneCharacter();
    } else {
      EncodeThenDecodeWide(units);
      assert !IsScalar(units[0]);
    }
  }

  lemma EmojiIsOneCharacter()
    ensures |Codepoints([0xd83d, 0xde00])| == 1 && WellFormedUtf16([0xd83d, 0xde00])
  {
    assert Codepoints([]) == [] && WellFormedUtf16([]);
    assert [0xd83d, 0xde00][2..] == [];
  }
}
