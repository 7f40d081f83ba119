/**
 The byte-level machinery over a mutable buffer: block scans by lane mask, and the escape
 decoders that write decoded bytes over the text they have already read.
 */
module InPlace {
  import opened Core
  import opened Grammar
  import opened Utf8
  import opened Strings

  const PADDING: nat := 128

  /** Text position i lives at mem[base + i]. The bytes from p on are still the text s, then `pad` NULs. */
  ghost predicate Unread(mem: array<byte>, base: nat, s: bytes, pad: nat, p: nat)
    reads mem
  {
    base + |s| + pad <= mem.Length &&
    forall j :: base + p <= j < base + |s| + pad ==> mem[j] == At(s, j - base)
  }

  /** Everything outside the text positions [lo, hi) keeps its old value. */
  twostate predicate OnlyWrote(mem: array<byte>, base: nat, lo: nat, hi: nat)
    reads mem
  {
    forall i :: 0 <= i < mem.Length && !(base + lo <= i < base + hi) ==> mem[i] == old(mem[i])
  }

  // ---- lane masks ----

  /** One flag per lane of a block. */
  type Mask = seq<bool>

  /** countr_zero: the lowest set lane (|m| when there is none). */
  function LowestLane(m: Mask): (k: nat)
    ensures k <= |m| && (k < |m| ==> m[k]) && forall i :: 0 <= i < k ==> !m[i]
  {
    if |m| == 0 || m[0] then 0 else LowestLane(m[1..]) + 1
  }

  /** Block scan for a quote, backslash or control byte: equals the byte-by-byte scan for every lane width up to 64. */
  method ScanToStop(mem: array<byte>, base: nat, curr: nat, width: nat, ghost s: bytes) returns (q: nat)
    requires 1 <= width <= 64 && curr <= |s| && Unread(mem, base, s, PADDING, curr)
    ensures q == StopAt(s, curr)
  {
    q := curr;
    while true
      invariant curr <= q <= |s| && StopAt(s, curr) == StopAt(s, q)
      decreases |s| - q
    {
      // The load reads [q, q + width), inside the padding.
      var mask := seq(width, k requires 0 <= k < width &&
        base + q + width <= mem.Length reads mem => IsStop(mem[base + q + k]));
      var off := LowestLane(mask);
      StopInBlock(s, q, width, mask);
      if off < width {
        q := q + off;
        return;
      }
      q := q + width;
    }
  }

  lemma StopInBlock(s: bytes, q: nat, width: nat, mask: Mask)
    requires q <= |s| && |mask| == width
    requires forall k :: 0 <= k < width ==> mask[k] == IsStop(At(s, q + k))
    ensures LowestLane(mask) < width ==> StopAt(s, q) == q + LowestLane(mask)
    ensures LowestLane(mask) == width ==> q + width <= |s| && StopAt(s, q) == StopAt(s, q + width)
  {
    var off := LowestLane(mask);
    forall i | q <= i < q + off ensures !IsStop(At(s, i)) {
      assert !mask[i - q];
    }
    assert IsStop(At(s, |s|));
    StopSkips(s, q, q + off);
  }

  lemma {:induction false} StopSkips(s: bytes, p: nat, q: nat)
    requires p <= q <= |s| && forall i :: p <= i < q ==> !IsStop(At(s, i))
    ensures StopAt(s, p) == StopAt(s, q)
    decreases q - p
  {
    if p < q {
      assert !IsStop(At(s, p));
      StopSkips(s, p + 1, q);
    }
  }

  /** Block scan over white space: equals SkipWs for every lane width up to 64. */
  method SkipWhitespaceBlocks(mem: array<byte>, base: nat, curr: nat, width: nat, ghost s: bytes) returns (q: nat)
    requires 1 <= width <= 64 && curr <= |s| && Unread(mem, base, s, PADDING, curr)
    ensures q == SkipWs(s, curr)
  {
    q := curr;
    if mem[base + q] > 0x20 {
      return;
    }
    while true
      invariant curr <= q <= |s| && SkipWs(s, curr) == SkipWs(s, q)
      decreases |s| - q
    {
      var nonWs := seq(width, k requires 0 <= k < width &&
        base + q + width <= mem.Length reads mem => !IsWs(mem[base + q + k]));
      WsInBlock(s, q, width, nonWs);
      var off := LowestLane(nonWs);
      if off < width {
        q := q + off;
        return;
      }
      q := q + width;
    }
  }

  lemma WsInBlock(s: bytes, q: nat, width: nat, mask: Mask)
    requires q <= |s| && |mask| == width
    requires forall k :: 0 <= k < width ==> mask[k] == !IsWs(At(s, q + k))
    ensures LowestLane(mask) < width ==> SkipWs(s, q) == q + LowestLane(mask)
    ensures LowestLane(mask) == width ==> q + width <= |s| && SkipWs(s, q) == SkipWs(s, q + width)
  {
    var off := LowestLane(mask);
    forall i | q <= i < q + off ensures IsWs(At(s, i)) {
      assert !mask[i - q];
    }
    assert !IsWs(At(s, |s|));
    WsSkips(s, q, q + off);
  }

  lemma {:induction false} WsSkips(s: bytes, p: nat, q: nat)
    requires p <= q <= |s| && forall i :: p <= i < q ==> IsWs(At(s, i))
    ensures SkipWs(s, p) == SkipWs(s, q)
    decreases q - p
  {
    if p < q {
      assert IsWs(At(s, p));
      WsSkips(s, p + 1, q);
    }
  }

  // ---- escapes in place ----

  /** parse_hex4: an unbounded read of four digits; the padding keeps it inside the buffer. */
  method ReadHex4(mem: array<byte>, base: nat, curr: nat, ghost s: bytes, ghost pad: nat) returns (r: Parsed<nat>)
    requires curr + 4 <= |s| + pad && Unread(mem, base, s, pad, curr)
    ensures r == Hex4(s, curr)
  {
    var code: nat := 0;
    var i: nat := 0;
    ghost var a, b, c := HexValue(At(s, curr)), HexValue(At(s, curr + 1)), HexValue(At(s, curr + 2));
    while i < 4
      invariant i <= 4
      invariant i >= 1 ==> a >= 0
      invariant i >= 2 ==> b >= 0
      invariant i >= 3 ==> c >= 0
      invariant i == 0 ==> code == 0
      invariant i == 1 ==> code == a
      invariant i == 2 ==> code == a * 16 + b
      invariant i == 3 ==> code == (a * 16 + b) * 16 + c
      invariant i == 4 ==> Hex4(s, curr) == Ok(code, curr + 4)
    {
      var v := HexValue(mem[base + curr + i]);
      if v < 0 {
        return Fail(Positioned(InvalidHexDigit, curr + i));
      }
      code := code * 16 + v;
      i := i + 1;
    }
    return Ok(code, curr + 4);
  }

  /** Store t at text position dst, directly after the content that starts at lo. */
  method Append(mem: array<byte>, base: nat, ghost lo: nat, dst: nat, t: bytes)
    requires lo <= dst && base + dst + |t| <= mem.Length
    modifies mem
    ensures mem[base + lo..base + dst + |t|] == old(mem[base + lo..base + dst]) + t
    ensures OnlyWrote(mem, base, dst, dst + |t|)
  {
    for k := 0 to |t|
      invariant mem[base + lo..base + dst + k] == old(mem[base + lo..base + dst]) + t[..k]
      invariant OnlyWrote(mem, base, dst, dst + |t|)
    {
      mem[base + dst + k] := t[k];
      assert mem[base + lo..base + dst + k + 1] == mem[base + lo..base + dst + k] + [t[k]];
    }
  }

  /** The reading half of handle_escape: which bytes the escape at start stands for. */
  method ReadEscape(mem: array<byte>, base: nat, start: nat, ghost s: bytes, ghost pad: nat) returns (r: Parsed<bytes>)
    requires start < |s| && pad >= 13 && Unread(mem, base, s, pad, start)
    ensures r == Escape(s, start)
  {
    hide Hex4, HexValue, EncodeUtf8, JoinPair, ShortEscape;
    var curr := start + 1;
    var decoded := ShortEscape(mem[base + curr]);
    if decoded != 0 {
      return Ok([decoded], curr + 1);
    }
    if mem[base + curr] != LOWER_U {
      return Fail(Positioned(InvalidEscapeChar, curr));
    }
    curr := curr + 1;
    var h := ReadHex4(mem, base, curr, s, pad);
    if h.Fail? {
      return Fail(h.error);
    }
    curr := h.next;
    var cp := h.value;
    if IsHighSurrogate(cp) {
      if mem[base + curr] != BACKSLASH || mem[base + curr + 1] != LOWER_U {
        return Fail(Positioned(ExpectedLowSurrogate, curr));
      }
      curr := curr + 2;
      var h2 := ReadHex4(mem, base, curr, s, pad);
      if h2.Fail? {
        return Fail(h2.error);
      }
      curr := h2.next;
      if !IsLowSurrogate(h2.value) {
        return Fail(Positioned(InvalidSurrogatePair, curr));
      }
      cp := JoinPair(cp, h2.value);
    } else if IsLowSurrogate(cp) {
      return Fail(Positioned(LoneLowSurrogate, curr));
    }
    var t := EncodeUtf8(cp);
    if t.None? {
      return Fail(ContextFree(InvalidCodepoint));
    }
    return Ok(t.value, curr);
  }

  /** handle_escape: read an escape at start, write its bytes at dst <= start. Unread input survives. */
  method HandleEscape(mem: array<byte>, base: nat, ghost lo: nat, dst: nat, start: nat, ghost s: bytes, ghost pad: nat)
      returns (r: Parsed<nat>)
    requires lo <= dst <= start < |s| && pad >= 13 && Unread(mem, base, s, pad, start)
    modifies mem
    ensures match Escape(s, start)
      case Fail(e) => r == Fail(e) && OnlyWrote(mem, base, dst, dst)
      case Ok(t, n) =>
        && r == Ok(dst + |t|, n) && dst + |t| < n
        && mem[base + lo..base + dst + |t|] == old(mem[base + lo..base + dst]) + t
        && OnlyWrote(mem, base, dst, dst + |t|)
        && Unread(mem, base, s, pad, n)
  {
    var x := ReadEscape(mem, base, start, s, pad);
    if x.Fail? {
      return Fail(x.error);
    }
    Append(mem, base, lo, dst, x.value);
    return Ok(dst + |x.value|, x.next);
  }

  // ---- phase 2 of parse_string ----

  /** One loop step past the quote test: an escape is decoded over its own text, a plain byte is copied down. */
  method DecodeUnit(mem: array<byte>, base: nat, ghost lo: nat, dst: nat, curr: nat, ghost s: bytes)
      returns (r: Parsed<nat>)
    requires lo <= dst <= curr <= |s| && Unread(mem, base, s, PADDING, curr)
    modifies mem
    ensures match Unit(s, curr)
      case Fail(e) => r == Fail(e) && OnlyWrote(mem, base, dst, dst)
      case Ok(t, n) =>
        && r == Ok(dst + |t|, n)
        && mem[base + lo..base + dst + |t|] == old(mem[base + lo..base + dst]) + t
        && OnlyWrote(mem, base, dst, dst + |t|)
        && Unread(mem, base, s, PADDING, n)
  {
    var c := mem[base + curr];
    if c == BACKSLASH {
      r := HandleEscape(mem, base, lo, dst, curr, s, PADDING);
    } else if c < 0x20 {
      r := Fail(Positioned(UnescapedControl, curr));
    } else {
      Append(mem, base, lo, dst, [c]);
      r := Ok(dst + 1, curr + 1);
    }
  }

  /**
   The in-place decode loop. The content decoded so far sits at [start, dst), the cursor at curr.
   The write cursor never passes the read cursor, so no unread byte changes and the overlaid
   result is exactly what decoding into a fresh buffer gives.
   */
  method DecodeInPlace(mem: array<byte>, base: nat, start: nat, first: nat, ck: Utf8Checker, strict: bool,
      ghost s: bytes)
      returns (r: Parsed<nat>)
    requires start <= first < |s| && Unread(mem, base, s, PADDING, first)
    requires ck.code.None?
    modifies mem, ck
    ensures match Decode(strict, s, first, old(ck.State()), old(mem[base + start..base + first]))
      case Fail(e) => r == Fail(e)
      case Ok(t, n) =>
        && r.Ok? && r.next == n && start <= r.value < n
        && mem[base + start..base + r.value] == t
        && Unread(mem, base, s, PADDING, n)
    ensures OnlyWrote(mem, base, start, |s|)
  {
    hide Decode, Unit, Utf8.Feed, Utf8.End;
    var dst, curr := first, first;
    ghost var spec := Decode(strict, s, first, ck.State(), mem[base + start..base + first]);
    while true
      invariant start <= dst <= curr <= |s|
      invariant Unread(mem, base, s, PADDING, curr)
      invariant ck.code.None?
      invariant spec == Decode(strict, s, curr, ck.State(), mem[base + start..base + dst])
      invariant OnlyWrote(mem, base, start, |s|)
      decreases |s| - curr
    {
      DecodeIs(strict, s, curr, ck.State(), mem[base + start..base + dst]);
      var c := mem[base + curr];
      if c == QUOTE {
        if strict {
          ck.Finish();
        }
        if ck.code.Some? {
          return Fail(Positioned(ck.code.value, ck.err));
        }
        return Ok(dst, curr + 1);
      }
      if strict {
        ck.FeedByte(c, curr);
      }
      if ck.code.Some? {
        return Fail(Positioned(ck.code.value, ck.err));
      }
      var x := DecodeUnit(mem, base, start, dst, curr, s);
      if x.Fail? {
        return Fail(x.error);
      }
      dst, curr := x.value, x.next;
    }
  }
}
