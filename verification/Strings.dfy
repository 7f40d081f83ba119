/**
 String tokens: the escape decoder, the two-phase RFC string scanner and the JSON5 scalar
 scanner as functions of the text, and the fact that the fast phase changes no outcome.
 */
module Strings {
  import opened Core
  import opened Grammar
  import opened Utf8

  const LOWER_U: byte := 0x75

  // ---- escapes ----

  /** Four hex digits at p, read without a bound (the caller's padding provides it). */
  function Hex4(s: bytes, p: nat): (r: Parsed<nat>)
    ensures r.Ok? ==> r.value <= 0xFFFF && r.next == p + 4 <= |s|
    ensures r.Fail? ==>
      && r.error.Positioned? && r.error.code == InvalidHexDigit && p <= r.error.offset < p + 4
      && HexValue(At(s, r.error.offset)) < 0
    ensures r.Fail? ==> forall i :: p <= i < r.error.offset ==> HexValue(At(s, i)) >= 0
  {
    var a := HexValue(At(s, p));
    if a < 0 then Fail(Positioned(InvalidHexDigit, p))
    else
      var b := HexValue(At(s, p + 1));
      if b < 0 then Fail(Positioned(InvalidHexDigit, p + 1))
      else
        var c := HexValue(At(s, p + 2));
        if c < 0 then Fail(Positioned(InvalidHexDigit, p + 2))
        else
          var d := HexValue(At(s, p + 3));
          if d < 0 then Fail(Positioned(InvalidHexDigit, p + 3))
          else Ok(((a * 16 + b) * 16 + c) * 16 + d, p + 4)
  }

  function JoinPair(hi: nat, lo: nat): (cp: nat)
    requires IsHighSurrogate(hi) && IsLowSurrogate(lo)
    ensures 0x10000 <= cp <= 0x10FFFF
  {
    0x10000 + (hi - 0xD800) * 1024 + (lo - 0xDC00)
  }

  function Encoded(cp: nat, next: nat): Parsed<bytes> {
    match EncodeUtf8(cp)
    case Some(t) => Ok(t, next)
    case None => Fail(ContextFree(InvalidCodepoint))
  }

  /** handle_escape: the backslash is at p. */
  function Escape(s: bytes, p: nat): (r: Parsed<bytes>)
    requires p < |s|
    ensures r.Ok? ==> p + 2 <= r.next <= |s| && r.next <= p + 12
    ensures r.Ok? ==> 1 <= |r.value| && |r.value| + 1 <= r.next - p
    ensures r != Fail(ContextFree(InvalidCodepoint))
  {
    var c := At(s, p + 1);
    if ShortEscape(c) != 0 then Ok([ShortEscape(c)], p + 2)
    else if c != LOWER_U then Fail(Positioned(InvalidEscapeChar, p + 1))
    else
      match Hex4(s, p + 2)
      case Fail(e) => Fail(e)
      case Ok(cp, q) =>
        if IsHighSurrogate(cp) then
          if At(s, q) == BACKSLASH && At(s, q + 1) == LOWER_U then
            match Hex4(s, q + 2)
            case Fail(e) => Fail(e)
            case Ok(cp2, r) =>
              if IsLowSurrogate(cp2) then Encoded(JoinPair(cp, cp2), r)
              else Fail(Positioned(InvalidSurrogatePair, r))
          else Fail(Positioned(ExpectedLowSurrogate, q))
        else if IsLowSurrogate(cp) then Fail(Positioned(LoneLowSurrogate, q))
        else Encoded(cp, q)
  }

  // ---- RFC 8259 strings ----

  /** The three byte classes that stop the block scan. */
  predicate IsStop(c: byte) { c == QUOTE || c == BACKSLASH || c < 0x20 }

  /** First position at or after p that stops the scan; NUL padding stops it at |s| at the latest. */
  function StopAt(s: bytes, p: nat): (q: nat)
    requires p <= |s|
    ensures p <= q <= |s| && IsStop(At(s, q))
    ensures forall i :: p <= i < q ==> !IsStop(s[i])
    decreases |s| - p
  {
    if p < |s| && !IsStop(s[p]) then StopAt(s, p + 1) else p
  }

  function FeedIf(strict: bool, ck: Checker, c: byte, p: nat): Checker {
    if strict then Feed(ck, c, p) else ck
  }

  function EndIf(strict: bool, ck: Checker): Checker {
    if strict then End(ck) else ck
  }

  function FeedRangeIf(strict: bool, ck: Checker, s: bytes, p: nat, q: nat): Checker
    requires q <= |s|
  {
    if strict then FeedRange(ck, s, p, q) else ck
  }

  function CkFail<T>(ck: Checker): Parsed<T>
    requires ck.code.Some?
  {
    Fail(Positioned(ck.code.value, ck.err))
  }

  /** What the byte at p contributes when it is not the closing quote: an escape, a plain byte, or an error. */
  function Unit(s: bytes, p: nat): (r: Parsed<bytes>)
    requires p <= |s|
    ensures r.Ok? ==> p < r.next <= |s| && |r.value| <= r.next - p
  {
    var c := At(s, p);
    if c == BACKSLASH then Escape(s, p)
    else if c < 0x20 then Fail(Positioned(UnescapedControl, p))
    else Ok([c], p + 1)
  }

  /** The scalar decoder (phase 2), from p with checker state ck and decoded prefix acc. */
  function Decode(strict: bool, s: bytes, p: nat, ck: Checker, acc: bytes): (r: Parsed<bytes>)
    requires p <= |s|
    ensures r.Ok? ==> p < r.next <= |s| && s[r.next - 1] == QUOTE
    decreases |s| - p
  {
    var c := At(s, p);
    if c == QUOTE then
      var ck1 := EndIf(strict, ck);
      if ck1.code.Some? then CkFail(ck1) else Ok(acc, p + 1)
    else
      var ck1 := FeedIf(strict, ck, c, p);
      if ck1.code.Some? then CkFail(ck1)
      else
        match Unit(s, p)
        case Fail(e) => Fail(e)
        case Ok(t, n) => Decode(strict, s, n, ck1, acc + t)
  }

  /** parse_string: the block scan, then either the borrowed fast path or the in-place decoder. */
  function ParseString(strict: bool, b: Input, p: nat): (r: Parsed<bytes>)
    requires p <= |b.buf|
    ensures r.Ok? ==> p + 1 < r.next <= |b.buf|
  {
    if p >= b.end || b.buf[p] != QUOTE then Fail(Positioned(ExpectedQuote, p))
    else
      var s, start := b.buf, p + 1;
      var q := StopAt(s, start);
      if At(s, q) == QUOTE then
        var ck := EndIf(strict, FeedRangeIf(strict, Fresh, s, start, q));
        if ck.code.Some? then CkFail(ck) else Ok(s[start..q], q + 1)
      else if At(s, q) == BACKSLASH then
        var ck := FeedRangeIf(strict, Fresh, s, start, q);
        if ck.code.Some? then CkFail(ck) else Decode(strict, s, q, ck, s[start..q])
      else if q >= b.end then Fail(Positioned(UnterminatedString, q))
      else Fail(Positioned(UnescapedControl, q))
  }

  /** One step of the scalar decoder. */
  lemma DecodeIs(strict: bool, s: bytes, p: nat, ck: Checker, acc: bytes)
    requires p <= |s|
    ensures var r := Decode(strict, s, p, ck, acc); var ck1 := FeedIf(strict, ck, At(s, p), p); var u := Unit(s, p);
      if At(s, p) == QUOTE then
        r == (if EndIf(strict, ck).code.Some? then CkFail(EndIf(strict, ck)) else Ok(acc, p + 1))
      else if ck1.code.Some? then r == CkFail(ck1)
      else if u.Fail? then r == Fail(u.error)
      else r == Decode(strict, s, u.next, ck1, acc + u.value)
  {
    hide Unit, Feed, End;
  }

  lemma {:induction false} DecodePlain(strict: bool, s: bytes, p: nat, q: nat, ck: Checker, acc: bytes)
    requires p <= q <= |s| && ck.code.None?
    requires forall i :: p <= i < q ==> !IsStop(s[i])
    ensures var ck1 := FeedRangeIf(strict, ck, s, p, q);
      if ck1.code.None? then Decode(strict, s, p, ck, acc) == Decode(strict, s, q, ck1, acc + s[p..q])
      else Decode(strict, s, p, ck, acc).Fail?
    decreases q - p
  {
    if p == q {
      assert acc + s[p..q] == acc;
    } else {
      var ck1 := FeedIf(strict, ck, s[p], p);
      if ck1.code.Some? {
        if strict { FeedFailed(ck1, s, p + 1, q); }
      } else {
        DecodePlain(strict, s, p + 1, q, ck1, acc + [s[p]]);
        assert acc + [s[p]] + s[p + 1..q] == acc + s[p..q];
      }
    }
  }

  /**
   The two-phase parser accepts what scalar decoding from the first content byte accepts, with the same value and end.
   */
  lemma FastPathAgrees(strict: bool, b: Input, p: nat)
    requires p < b.end && b.buf[p] == QUOTE
    ensures var r := ParseString(strict, b, p); var d := Decode(strict, b.buf, p + 1, Fresh, []);
      (r.Ok? <==> d.Ok?) && (r.Ok? ==> r == d)
  {
    var s := b.buf;
    var q := StopAt(s, p + 1);
    DecodePlain(strict, s, p + 1, q, Fresh, []);
    assert [] + s[p + 1..q] == s[p + 1..q];
  }

  /** The text stops at e: nothing follows, or a control byte (the line break behind a line). */
  predicate Sealed(s: bytes, e: nat) { e <= |s| && (e == |s| || s[e] < 0x20) }

  lemma EscapeSealed(s: bytes, p: nat, e: nat)
    requires p < |s| && p < e && Sealed(s, e) && Escape(s, p).Ok?
    ensures Escape(s, p).next <= e
  {
    hide EncodeUtf8, JoinPair, HexValue, Hex4;
    if e < |s| {
      HexSealed(s, p + 2, e);
      HexSealed(s, p + 8, e);
    }
  }

  lemma HexSealed(s: bytes, p: nat, e: nat)
    requires e < |s| && s[e] < 0x20
    ensures Hex4(s, p).Ok? ==> e < p || p + 4 <= e
  {
  }

  /** A string that starts before a sealed end is over by then. */
  lemma {:induction false} DecodeSealed(strict: bool, s: bytes, p: nat, e: nat, ck: Checker, acc: bytes)
    requires p <= e && Sealed(s, e) && Decode(strict, s, p, ck, acc).Ok?
    ensures Decode(strict, s, p, ck, acc).next <= e
    decreases |s| - p
  {
    var c := At(s, p);
    if c != QUOTE {
      var u := Unit(s, p);
      if c == BACKSLASH { EscapeSealed(s, p, e); }
      DecodeSealed(strict, s, u.next, e, FeedIf(strict, ck, c, p), acc + u.value);
    }
  }

  lemma StringSealed(strict: bool, b: Input, p: nat)
    requires p <= |b.buf| && Sealed(b.buf, b.end) && ParseString(strict, b, p).Ok?
    ensures ParseString(strict, b, p).next <= b.end
  {
    FastPathAgrees(strict, b, p);
    DecodeSealed(strict, b.buf, p + 1, b.end, Fresh, []);
    hide ParseString, Decode;
  }

  // ---- JSON5 strings ----

  predicate IsLineSeparator(s: bytes, p: nat, e: nat)
    requires e <= |s|
  {
    p + 3 <= e && s[p] == 0xE2 && s[p + 1] == 0x80 && (s[p + 2] == 0xA8 || s[p + 2] == 0xA9)
  }

  /** Four hex digits at p, each checked against the end first. */
  function Hex4Bounded(s: bytes, p: nat, e: nat): (r: Parsed<nat>)
    requires e <= |s|
    ensures r.Ok? ==> p + 4 <= e && r == Hex4(s, p)
  {
    if p >= e then Fail(Positioned(UnterminatedString, p))
    else if HexValue(s[p]) < 0 then Fail(Positioned(InvalidHexDigit, p))
    else if p + 1 >= e then Fail(Positioned(UnterminatedString, p + 1))
    else if HexValue(s[p + 1]) < 0 then Fail(Positioned(InvalidHexDigit, p + 1))
    else if p + 2 >= e then Fail(Positioned(UnterminatedString, p + 2))
    else if HexValue(s[p + 2]) < 0 then Fail(Positioned(InvalidHexDigit, p + 2))
    else if p + 3 >= e then Fail(Positioned(UnterminatedString, p + 3))
    else if HexValue(s[p + 3]) < 0 then Fail(Positioned(InvalidHexDigit, p + 3))
    else Hex4(s, p)
  }

  function ShortEscape5(c: byte): byte {
    if c == APOSTROPHE then APOSTROPHE
    else if c == 0x76 then 0x0B
    else ShortEscape(c)
  }

  /** The `\u` form: p is at the 'u'. */
  function UnicodeEscape5(s: bytes, p: nat, e: nat): (r: Parsed<bytes>)
    requires p < e <= |s|
    ensures r.Ok? ==> p + 5 <= r.next <= e && |r.value| + 2 <= r.next - p
  {
    match Hex4Bounded(s, p + 1, e)
    case Fail(x) => Fail(x)
    case Ok(cp, q) =>
      if IsHighSurrogate(cp) then
        if q + 2 <= e && s[q] == BACKSLASH && s[q + 1] == LOWER_U then
          match Hex4Bounded(s, q + 2, e)
          case Fail(x) => Fail(x)
          case Ok(cp2, r) =>
            if IsLowSurrogate(cp2) then Encoded(JoinPair(cp, cp2), r)
            else Fail(Positioned(InvalidSurrogatePair, r))
        else Fail(Positioned(ExpectedLowSurrogate, q))
      else if IsLowSurrogate(cp) then Fail(Positioned(LoneLowSurrogate, q))
      else Encoded(cp, q)
  }

  /** handle_escape_json5_bounded: the backslash is at p, no byte at or past e is read. */
  function Escape5(s: bytes, p: nat, e: nat): (r: Parsed<bytes>)
    requires p < e <= |s|
    ensures r.Ok? ==> p + 2 <= r.next <= e && |r.value| + 1 <= r.next - p
  {
    if p + 1 >= e then Fail(Positioned(UnterminatedString, p + 1))
    else
      var c := s[p + 1];
      if c == LF then Ok([], p + 2)
      else if c == CR then Ok([], if p + 2 < e && s[p + 2] == LF then p + 3 else p + 2)
      else if IsLineSeparator(s, p + 1, e) then Ok([], p + 4)
      else if c == 0x78 then
        if e < p + 4 then Fail(Positioned(UnterminatedString, p + 2))
        else if HexValue(s[p + 2]) < 0 then Fail(Positioned(InvalidHexDigit, p + 2))
        else if HexValue(s[p + 3]) < 0 then Fail(Positioned(InvalidHexDigit, p + 3))
        else Ok([HexValue(s[p + 2]) * 16 + HexValue(s[p + 3])], p + 4)
      else if c == 0x30 then
        if p + 2 < e && IsDigit(s[p + 2]) then Fail(Positioned(InvalidEscapeChar, p + 1))
        else Ok([0], p + 2)
      else if 0x31 <= c <= 0x39 then Fail(Positioned(InvalidEscapeChar, p + 1))
      else if c == LOWER_U then UnicodeEscape5(s, p + 1, e)
      else if ShortEscape5(c) != 0 then Ok([ShortEscape5(c)], p + 2)
      else Ok([c], p + 2)
  }

  /** The JSON5 counterpart of Unit. */
  function Unit5(s: bytes, p: nat, e: nat): (r: Parsed<bytes>)
    requires p < e <= |s|
    ensures r.Ok? ==> p < r.next <= e && |r.value| <= r.next - p
  {
    var c := s[p];
    if c == BACKSLASH then Escape5(s, p, e)
    else if c == LF || c == CR then Fail(Positioned(UnescapedControl, p))
    else Ok([c], p + 1)
  }

  /** The JSON5 scalar decoder, from p with checker state ck and decoded prefix acc. */
  function Decode5(strict: bool, s: bytes, p: nat, e: nat, quote: byte, ck: Checker, acc: bytes): (r: Parsed<bytes>)
    requires p <= e <= |s|
    ensures r.Ok? ==> p < r.next <= e
    decreases e - p
  {
    if p >= e then Fail(Positioned(UnterminatedString, p))
    else
      var c := s[p];
      if c == quote then
        var ck1 := EndIf(strict, ck);
        if ck1.code.Some? then CkFail(ck1) else Ok(acc, p + 1)
      else
        var ck1 := FeedIf(strict, ck, c, p);
        if ck1.code.Some? then CkFail(ck1)
        else
          match Unit5(s, p, e)
          case Fail(x) => Fail(x)
          case Ok(t, n) => Decode5(strict, s, n, e, quote, ck1, acc + t)
  }

  /** One step of the JSON5 decoder. */
  lemma Decode5Is(strict: bool, s: bytes, p: nat, e: nat, quote: byte, ck: Checker, acc: bytes)
    requires p <= e <= |s|
    ensures var r := Decode5(strict, s, p, e, quote, ck, acc); var ck1 := FeedIf(strict, ck, At(s, p), p);
      if p >= e then r == Fail(Positioned(UnterminatedString, p))
      else if s[p] == quote then
        r == (if EndIf(strict, ck).code.Some? then CkFail(EndIf(strict, ck)) else Ok(acc, p + 1))
      else if ck1.code.Some? then r == CkFail(ck1)
      else
        var u := Unit5(s, p, e);
        if u.Fail? then r == Fail(u.error) else r == Decode5(strict, s, u.next, e, quote, ck1, acc + u.value)
  {
    hide Unit5, Feed, End;
  }

  /** parse_string_json5 with the opening quote at p. */
  function ParseString5(strict: bool, b: Input, p: nat, quote: byte): (r: Parsed<bytes>)
    ensures r.Ok? ==> p + 1 < r.next <= b.end
  {
    if p >= b.end then Fail(Positioned(UnterminatedString, p + 1))
    else Decode5(strict, b.buf, p + 1, b.end, quote, Fresh, [])
  }

  /** An escape the RFC decoder accepts inside the logical end decodes to the same bytes under JSON5. */
  lemma Escape5Extends(s: bytes, p: nat, e: nat)
    requires p < e <= |s|
    requires Escape(s, p).Ok? && Escape(s, p).next <= e
    ensures Escape5(s, p, e) == Escape(s, p)
  {
    var c := s[p + 1];
    if ShortEscape(c) != 0 {
      assert c != 0x78 && c != 0x30 && c != LOWER_U && c != 0xE2;
    } else {
      assert Hex4Bounded(s, p + 2, e) == Hex4(s, p + 2);
      var h := Hex4(s, p + 2);
      if IsHighSurrogate(h.value) {
        assert Hex4Bounded(s, h.next + 2, e) == Hex4(s, h.next + 2);
      }
    }
  }

  /** Whatever the RFC scalar decoder accepts, ending inside e, the JSON5 decoder accepts with the same value. */
  lemma {:induction false} Decode5Extends(strict: bool, s: bytes, p: nat, e: nat, ck: Checker, acc: bytes)
    requires p <= e <= |s|
    requires Decode(strict, s, p, ck, acc).Ok? && Decode(strict, s, p, ck, acc).next <= e
    ensures Decode5(strict, s, p, e, QUOTE, ck, acc) == Decode(strict, s, p, ck, acc)
    decreases |s| - p
  {
    var c := s[p];
    if c == QUOTE {
    } else if c == BACKSLASH {
      var x := Escape(s, p);
      var ck1 := FeedIf(strict, ck, c, p);
      Decode5Extends(strict, s, x.next, e, ck1, acc + x.value);
      Escape5Extends(s, p, e);
    } else {
      Decode5Extends(strict, s, p + 1, e, FeedIf(strict, ck, c, p), acc + [c]);
    }
  }
}
