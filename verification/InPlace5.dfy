/**
 The JSON5 string decoder over a mutable buffer. Every read is bounded by the logical end, and
 nothing is copied until the first escape has been seen.
 */
module InPlace5 {
  import opened Core
  import opened Grammar
  import opened Utf8
  import opened Strings
  import opened InPlace

  method ReadHex4Bounded(mem: array<byte>, base: nat, start: nat, end: nat, ghost s: bytes) returns (r: Parsed<nat>)
    requires end <= |s| && Unread(mem, base, s, PADDING, start)
    ensures r == Hex4Bounded(s, start, end)
  {
    var code: nat := 0;
    var curr := start;
    ghost var a, b, c := HexValue(At(s, start)), HexValue(At(s, start + 1)), HexValue(At(s, start + 2));
    while curr < start + 4
      invariant start <= curr <= start + 4
      invariant curr > start ==> curr <= end && a >= 0
      invariant curr >= start + 2 ==> b >= 0
      invariant curr >= start + 3 ==> c >= 0
      invariant curr == start ==> code == 0
      invariant curr == start + 1 ==> code == a
      invariant curr == start + 2 ==> code == a * 16 + b
      invariant curr == start + 3 ==> code == (a * 16 + b) * 16 + c
      invariant curr == start + 4 ==> Hex4Bounded(s, start, end) == Ok(code, curr)
    {
      if curr >= end {
        return Fail(Positioned(UnterminatedString, curr));
      }
      var v := HexValue(mem[base + curr]);
      if v < 0 {
        return Fail(Positioned(InvalidHexDigit, curr));
      }
      code := code * 16 + v;
      curr := curr + 1;
    }
    return Ok(code, curr);
  }

  /** The `\u` form, with the cursor at the 'u'. */
  method ReadUnicode5(mem: array<byte>, base: nat, start: nat, end: nat, ghost s: bytes) returns (r: Parsed<bytes>)
    requires start < end <= |s| && Unread(mem, base, s, PADDING, start)
    ensures r == UnicodeEscape5(s, start, end)
  {
    var h := ReadHex4Bounded(mem, base, start + 1, end, s);
    if h.Fail? {
      return Fail(h.error);
    }
    var curr, cp := h.next, h.value;
    if IsHighSurrogate(cp) {
      if !(curr + 2 <= end && mem[base + curr] == BACKSLASH && mem[base + curr + 1] == LOWER_U) {
        return Fail(Positioned(ExpectedLowSurrogate, curr));
      }
      var h2 := ReadHex4Bounded(mem, base, curr + 2, end, s);
      if h2.Fail? {
        return Fail(h2.error);
      }
      curr := h2.next;
      if !IsLowSurrogate(h2.value) {
        return Fail(Positioned(InvalidSurrogatePair, curr));
      }
      cp := JoinPair(cp, h2.value);
    } else if IsLowSurrogate(cp) {
      return Fail(Positioned(LoneLowSurrogate, curr));
    }
    var t := EncodeUtf8(cp);
    if t.None? {
      return Fail(ContextFree(InvalidCodepoint));
    }
    return Ok(t.value, curr);
  }

  /** Which bytes the JSON5 escape at start stands for; a line continuation stands for none. */
  method ReadEscape5(mem: array<byte>, base: nat, start: nat, end: nat, ghost s: bytes) returns (r: Parsed<bytes>)
    requires start < end <= |s| && Unread(mem, base, s, PADDING, start)
    ensures r == Escape5(s, start, end)
  {
    var curr := start + 1;
    if curr >= end {
      return Fail(Positioned(UnterminatedString, curr));
    }
    var e := mem[base + curr];
    if e == LF {
      return Ok([], curr + 1);
    }
    if e == CR {
      curr := curr + 1;
      if curr < end && mem[base + curr] == LF {
        curr := curr + 1;
      }
      return Ok([], curr);
    }
    if e == 0xE2 && end - curr >= 3 && mem[base + curr + 1] == 0x80 &&
      (mem[base + curr + 2] == 0xA8 || mem[base + curr + 2] == 0xA9) {
      return Ok([], curr + 3);
    }
    if e == 0x78 {
      curr := curr + 1;
      if end < curr + 2 {
        return Fail(Positioned(UnterminatedString, curr));
      }
      var hi := HexValue(mem[base + curr]);
      if hi < 0 {
        return Fail(Positioned(InvalidHexDigit, curr));
      }
      var lo := HexValue(mem[base + curr + 1]);
      if lo < 0 {
        return Fail(Positioned(InvalidHexDigit, curr + 1));
      }
      return Ok([hi * 16 + lo], curr + 2);
    }
    if e == 0x30 {
      if curr + 1 < end && IsDigit(mem[base + curr + 1]) {
        return Fail(Positioned(InvalidEscapeChar, curr));
      }
      return Ok([0], curr + 1);
    }
    if 0x31 <= e <= 0x39 {
      return Fail(Positioned(InvalidEscapeChar, curr));
    }
    if e == LOWER_U {
      r := ReadUnicode5(mem, base, curr, end, s);
      return;
    }
    var decoded := ShortEscape5(e);
    if decoded != 0 {
      return Ok([decoded], curr + 1);
    }
    return Ok([e], curr + 1);
  }

  /** A step of the JSON5 loop. `decoding` is false until the first escape; until then nothing is written. */
  method DecodeUnit5(mem: array<byte>, base: nat, ghost lo: nat, decoding: bool, dst: nat, curr: nat, end: nat,
      ghost s: bytes)
      returns (r: Parsed<nat>, decoding': bool)
    requires lo <= dst <= curr < end <= |s| && (!decoding ==> dst == curr)
    requires Unread(mem, base, s, PADDING, curr)
    modifies mem
    ensures match Unit5(s, curr, end)
      case Fail(e) => r == Fail(e) && OnlyWrote(mem, base, dst, dst)
      case Ok(t, n) =>
        && r == Ok(dst + |t|, n)
        && (!decoding' ==> dst + |t| == n)
        && mem[base + lo..base + dst + |t|] == old(mem[base + lo..base + dst]) + t
        && OnlyWrote(mem, base, dst, dst + |t|)
        && Unread(mem, base, s, PADDING, n)
  {
    hide Escape5;
    decoding' := decoding;
    var c := mem[base + curr];
    if c == BACKSLASH {
      decoding' := true;
      var x := ReadEscape5(mem, base, curr, end, s);
      if x.Fail? {
        r := Fail(x.error);
        return;
      }
      Append(mem, base, lo, dst, x.value);
      r := Ok(dst + |x.value|, x.next);
    } else if c == LF || c == CR {
      r := Fail(Positioned(UnescapedControl, curr));
    } else {
      if decoding {
        Append(mem, base, lo, dst, [c]);
      } else {
        assert mem[base + lo..base + dst + 1] == mem[base + lo..base + dst] + [c];
      }
      r := Ok(dst + 1, curr + 1);
    }
  }

  /**
   parse_string_json5: the opening quote is at first - 1. On success the content is mem[base + first..base + r.value].
   */
  method ParseStringInPlace5(mem: array<byte>, base: nat, first: nat, end: nat, quote: byte, strict: bool,
      ghost s: bytes)
      returns (r: Parsed<nat>)
    requires first <= end <= |s| && Unread(mem, base, s, PADDING, first)
    modifies mem
    ensures match Decode5(strict, s, first, end, quote, Fresh, [])
      case Fail(e) => r == Fail(e)
      case Ok(t, n) =>
        && r.Ok? && r.next == n && first <= r.value <= n
        && mem[base + first..base + r.value] == t
        && Unread(mem, base, s, PADDING, n)
    ensures OnlyWrote(mem, base, first, |s|)
  {
    hide Decode5, Unit5, Utf8.Feed, Utf8.End;
    var dst, curr := first, first;
    var decoding := false;
    var ck := new Utf8Checker();
    assert mem[base + first..base + dst] == [];
    ghost var spec := Decode5(strict, s, first, end, quote, Fresh, []);
    while true
      invariant first <= dst <= curr <= end && (!decoding ==> dst == curr)
      invariant Unread(mem, base, s, PADDING, curr)
      invariant ck.code.None? && fresh(ck)
      invariant spec == Decode5(strict, s, curr, end, quote, ck.State(), mem[base + first..base + dst])
      invariant OnlyWrote(mem, base, first, |s|)
      decreases end - curr
    {
      Decode5Is(strict, s, curr, end, quote, ck.State(), mem[base + first..base + dst]);
      if curr >= end {
        return Fail(Positioned(UnterminatedString, curr));
      }
      var c := mem[base + curr];
      if c == quote {
        if strict {
          ck.Finish();
        }
        if ck.code.Some? {
          return Fail(Positioned(ck.code.value, ck.err));
        }
        return Ok(dst, curr + 1);
      }
      if strict {
        ck.FeedByte(c, curr);
      }
      if ck.code.Some? {
        return Fail(Positioned(ck.code.value, ck.err));
      }
      var x, d := DecodeUnit5(mem, base, first, decoding, dst, curr, end, s);
      if x.Fail? {
        return Fail(x.error);
      }
      dst, curr, decoding := x.value, x.next, d;
    }
  }
}
