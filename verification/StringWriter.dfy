/**
 Writing string tokens: the block-wise escaper, the ascii escaper with its UTF-8 decoder and
 surrogate split, and the fact that parsing undoes both.
 */
module StringWriter {
  import opened Core
  import opened Grammar
  import opened Utf8
  import opened Strings

  /** A lower-case hex digit. */
  function HexChar(d: nat): (c: byte)
    requires d < 16
    ensures HexValue(c) == d && !IsStop(c) && c < 0x80
  {
    if d < 10 then 0x30 + d else 0x61 + d - 10
  }

  function U4(v: nat): (t: bytes)
    requires v <= 0xFFFF
    ensures |t| == 6
  {
    [BACKSLASH, LOWER_U, HexChar(v / 4096), HexChar(v / 256 % 16), HexChar(v / 16 % 16), HexChar(v % 16)]
  }

  /** append_escape: a named escape, or \u00xx for the other control bytes. */
  function EscapeOf(c: byte): (t: bytes)
    requires IsStop(c)
    ensures |t| >= 2
  {
    if c == QUOTE then [BACKSLASH, QUOTE]
    else if c == BACKSLASH then [BACKSLASH, BACKSLASH]
    else if c == 0x08 then [BACKSLASH, 0x62]
    else if c == 0x0C then [BACKSLASH, 0x66]
    else if c == 0x0A then [BACKSLASH, 0x6E]
    else if c == 0x0D then [BACKSLASH, 0x72]
    else if c == 0x09 then [BACKSLASH, 0x74]
    else U4(c)
  }

  function EscapedByte(c: byte): bytes {
    if IsStop(c) then EscapeOf(c) else [c]
  }

  /** The escaped form of s[i..]. */
  function Escaped(s: bytes, i: nat): bytes
    requires i <= |s|
    decreases |s| - i
  {
    if i == |s| then [] else EscapedByte(s[i]) + Escaped(s, i + 1)
  }

  // ---- ascii mode ----

  datatype AsciiStep = Step(text: bytes, len: nat) | Reject(code: Code)

  /** Accumulate one continuation byte into a code point. */
  function Push(cp: nat, b: byte): nat { cp * 64 + b % 64 }

  function AsciiText(cp: nat): bytes
    requires cp <= 0x10FFFF
  {
    if cp <= 0xFFFF then U4(cp)
    else U4(0xD800 + (cp - 0x10000) / 1024) + U4(0xDC00 + (cp - 0x10000) % 1024)
  }

  /** The code point of a lead byte with its continuations, as the ascii writer accumulates it. */
  function RawPoint(s: bytes, i: nat, len: nat): nat
    requires 2 <= len <= 4 && i + len <= |s|
  {
    if len == 2 then Push(s[i] % 32, s[i + 1])
    else if len == 3 then Push(Push(s[i] % 16, s[i + 1]), s[i + 2])
    else Push(Push(Push(s[i] % 8, s[i + 1]), s[i + 2]), s[i + 3])
  }

  predicate Tails(s: bytes, lo: nat, hi: nat)
    requires hi <= |s|
  {
    forall j :: lo <= j < hi ==> IsTail(s[j])
  }

  function LeadLength(c: byte): nat {
    if 0xC0 <= c <= 0xDF then 2 else if 0xE0 <= c <= 0xEF then 3 else if 0xF0 <= c <= 0xF7 then 4 else 0
  }

  /** One loop step of write_escaped_ascii at a byte >= 0x80, with its own order of checks. */
  function AsciiMultibyte(s: bytes, i: nat): AsciiStep
    requires i < |s| && s[i] >= 0x80
  {
    var len := LeadLength(s[i]);
    if len == 0 then Reject(Utf8InvalidLead)
    else if i + len > |s| then Reject(Utf8Truncated)
    else if !Tails(s, i + 1, i + len) then Reject(Utf8InvalidContinuation)
    else
      var cp := RawPoint(s, i, len);
      if len == 2 && cp < 0x80 then Reject(Utf8Overlong)
      else if len == 3 && cp < 0x800 then Reject(Utf8Overlong)
      else if len == 4 && cp < 0x10000 then Reject(Utf8Overlong)
      else if cp > 0x10FFFF then Reject(Utf8ExceedsMax)
      else if 0xD800 <= cp <= 0xDFFF then Reject(Utf8Surrogate)
      else Step(AsciiText(cp), len)
  }

  function AsciiAt(s: bytes, i: nat): (r: AsciiStep)
    requires i < |s|
    ensures r.Step? ==> 0 < r.len && i + r.len <= |s|
  {
    if s[i] < 0x80 then Step(EscapedByte(s[i]), 1) else AsciiMultibyte(s, i)
  }

  /** Text to be appended to the sink, or the first failure. */
  datatype Written = Text(t: bytes) | Failed(code: Code)

  /** The ascii form of s[i..], or the first UTF-8 violation. */
  function AsciiEscaped(s: bytes, i: nat): Written
    requires i <= |s|
    decreases |s| - i
  {
    if i == |s| then Text([])
    else
      match AsciiAt(s, i)
      case Reject(c) => Failed(c)
      case Step(t, n) =>
        match AsciiEscaped(s, i + n)
        case Failed(c) => Failed(c)
        case Text(u) => Text(t + u)
  }

  /** The written token, quotes included. */
  function Token(raw: bytes, ascii: bool): Written {
    if ascii then
      match AsciiEscaped(raw, 0)
      case Text(t) => Text([QUOTE] + t + [QUOTE])
      case Failed(c) => Failed(c)
    else Text([QUOTE] + Escaped(raw, 0) + [QUOTE])
  }

  lemma PointOfTwo(s: bytes, i: nat)
    requires i + 2 <= |s| && 0xC0 <= s[i] <= 0xDF && IsTail(s[i + 1])
    ensures RawPoint(s, i, 2) == Join2(s[i], s[i + 1])
    ensures RawPoint(s, i, 2) >= 0x80 <==> s[i] >= 0xC2
  {
  }

  lemma PointOfThree(s: bytes, i: nat)
    requires i + 3 <= |s| && 0xE0 <= s[i] <= 0xEF && Tails(s, i + 1, i + 3)
    ensures RawPoint(s, i, 3) == Join3(s[i], s[i + 1], s[i + 2])
    ensures RawPoint(s, i, 3) >= 0x800 && !(0xD800 <= RawPoint(s, i, 3) <= 0xDFFF) <==> IsUtf8Three(s, i)
    ensures RawPoint(s, i, 3) <= 0xFFFF
  {
    assert IsTail(s[i + 1]) && IsTail(s[i + 2]);
    Three(s[i], s[i + 1], s[i + 2]);
  }

  lemma PointOfFour(s: bytes, i: nat)
    requires i + 4 <= |s| && 0xF0 <= s[i] <= 0xF7 && Tails(s, i + 1, i + 4)
    ensures RawPoint(s, i, 4) == Join4(s[i], s[i + 1], s[i + 2], s[i + 3])
    ensures 0x10000 <= RawPoint(s, i, 4) <= 0x10FFFF <==> IsUtf8Four(s, i)
  {
    assert IsTail(s[i + 1]) && IsTail(s[i + 2]) && IsTail(s[i + 3]);
    var a, b: nat := s[i] % 8, s[i + 1] % 64;
    assert a == s[i] - 0xF0 && b == s[i + 1] - 0x80;
    assert RawPoint(s, i, 4) == ((a * 64 + b) * 64 + s[i + 2] % 64) * 64 + s[i + 3] % 64;
  }

  /** The ascii writer's step accepts exactly the characters of RFC 3629 and decodes them as decode_utf8 does. */
  lemma AsciiStepIsGrammar(s: bytes, i: nat)
    requires i < |s| && s[i] >= 0x80
    ensures AsciiMultibyte(s, i).Step? <==> CharLen(s, i) > 0
    ensures CharLen(s, i) > 0 ==> var d := DecodeUtf8(s, i, |s|);
      d.Good? && d.cp <= 0x10FFFF && AsciiMultibyte(s, i) == Step(AsciiText(d.cp), CharLen(s, i))
  {
    var len := LeadLength(s[i]);
    DecodeMatchesGrammar(s, i);
    if len > 0 && i + len <= |s| && Tails(s, i + 1, i + len) {
      if len == 2 { PointOfTwo(s, i); }
      if len == 3 { PointOfThree(s, i); }
      if len == 4 { PointOfFour(s, i); }
    } else {
      NoCharWithoutTails(s, i);
    }
  }

  lemma NoCharWithoutTails(s: bytes, i: nat)
    requires i < |s| && s[i] >= 0x80
    requires var len := LeadLength(s[i]); len == 0 || i + len > |s| || !Tails(s, i + 1, i + len)
    ensures CharLen(s, i) == 0
  {
  }

  /** Ascii mode succeeds exactly on well-formed UTF-8. */
  lemma {:induction false} AsciiIsGrammar(s: bytes, i: nat)
    requires i <= |s|
    ensures AsciiEscaped(s, i).Text? <==> WellFormedFrom(s, i)
    decreases |s| - i
  {
    if i < |s| {
      if s[i] >= 0x80 { AsciiStepIsGrammar(s, i); }
      if AsciiAt(s, i).Step? { AsciiIsGrammar(s, i + AsciiAt(s, i).len); }
    }
  }

  /** Printable ASCII only. */
  predicate AllAscii(t: bytes) { forall i :: 0 <= i < |t| ==> 0x20 <= t[i] < 0x80 }

  lemma EscapeOfIsAscii(c: byte)
    requires IsStop(c)
    ensures AllAscii(EscapeOf(c))
  {
  }

  lemma AsciiTextIsAscii(cp: nat)
    requires cp <= 0x10FFFF
    ensures AllAscii(AsciiText(cp))
  {
  }

  /** Ascii output holds only printable ASCII. */
  lemma {:induction false} AsciiOutputIsAscii(s: bytes, i: nat)
    requires i <= |s| && AsciiEscaped(s, i).Text?
    ensures AllAscii(AsciiEscaped(s, i).t)
    decreases |s| - i
  {
    if i < |s| {
      var st := AsciiAt(s, i);
      AsciiOutputIsAscii(s, i + st.len);
      if s[i] >= 0x80 {
        AsciiStepIsGrammar(s, i);
        DecodeMatchesGrammar(s, i);
        AsciiTextIsAscii(DecodeUtf8(s, i, |s|).cp);
      } else if IsStop(s[i]) {
        EscapeOfIsAscii(s[i]);
      }
      assert AllAscii(st.text);
    }
  }
}
