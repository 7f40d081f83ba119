/**
 The two string token parsers over the live buffer: the RFC block scan with its in-place fallback, and the
 JSON5 scalar parser. Each returns exactly what its function of the text says and leaves unread bytes alone.
 */
module StringTokens {
  import opened Core
  import opened Utf8
  import opened Strings
  import opened InPlace
  import opened InPlace5

  /** Feed the still unread run [p, q) to the checker. */
  method FeedUnread(ck: Utf8Checker, mem: array<byte>, base: nat, p: nat, q: nat, ghost s: bytes)
    requires p <= q <= |s| && Unread(mem, base, s, PADDING, p)
    modifies ck
    ensures ck.State() == FeedRange(old(ck.State()), s, p, q)
  {
    var i := p;
    while i < q && ck.code.None?
      invariant p <= i <= q
      invariant FeedRange(old(ck.State()), s, p, q) == FeedRange(ck.State(), s, i, q)
    {
      ck.FeedByte(mem[base + i], i);
      i := i + 1;
    }
    FeedFailed(ck.State(), s, i, q);
  }

  method CheckUtf8Strict(mem: array<byte>, base: nat, p: nat, q: nat, ghost s: bytes) returns (r: Option<Error>)
    requires p <= q <= |s| && Unread(mem, base, s, PADDING, p)
    ensures r == CheckStrict(s, p, q)
  {
    var ck := new Utf8Checker();
    FeedUnread(ck, mem, base, p, q, s);
    ck.Finish();
    return if ck.code.Some? then Some(Positioned(ck.code.value, ck.err)) else None;
  }

  /** What ParseString does once the block scan has stopped at q. */
  function AfterScan(strict: bool, b: Input, start: nat, q: nat): Parsed<bytes>
    requires start <= q <= |b.buf|
  {
    var s := b.buf;
    if At(s, q) == QUOTE then
      var ck := EndIf(strict, FeedRangeIf(strict, Fresh, s, start, q));
      if ck.code.Some? then CkFail(ck) else Ok(s[start..q], q + 1)
    else if At(s, q) == BACKSLASH then
      var ck := FeedRangeIf(strict, Fresh, s, start, q);
      if ck.code.Some? then CkFail(ck) else Decode(strict, s, q, ck, s[start..q])
    else if q >= b.end then Fail(Positioned(UnterminatedString, q))
    else Fail(Positioned(UnescapedControl, q))
  }

  /** parse_string with the cursor at the opening quote. */
  method ParseStringRfc(mem: array<byte>, base: nat, p: nat, end: nat, width: nat, strict: bool, ghost s: bytes)
      returns (r: Parsed<bytes>)
    requires 1 <= width <= 64 && p < end <= |s| && s[p] == QUOTE && Unread(mem, base, s, PADDING, p)
    modifies mem
    ensures r == ParseString(strict, Input(s, end), p)
    ensures r.Ok? ==> Unread(mem, base, s, PADDING, r.next)
    ensures OnlyWrote(mem, base, p, |s|)
  {
    var start := p + 1;
    var q := ScanToStop(mem, base, start, width, s);
    assert ParseString(strict, Input(s, end), p) == AfterScan(strict, Input(s, end), start, q);
    hide ParseString;
    var c := mem[base + q];
    if c == QUOTE {
      r := FastPath(mem, base, start, q, strict, s, end);
    } else if c == BACKSLASH {
      r := SlowPath(mem, base, start, q, strict, s, end);
    } else if q >= end {
      r := Fail(Positioned(UnterminatedString, q));
    } else {
      r := Fail(Positioned(UnescapedControl, q));
    }
  }

  /** The borrowed fast path: nothing is written. */
  method FastPath(mem: array<byte>, base: nat, start: nat, q: nat, strict: bool, ghost s: bytes, ghost end: nat)
      returns (r: Parsed<bytes>)
    requires start <= q < |s| && end <= |s| && s[q] == QUOTE && Unread(mem, base, s, PADDING, start)
    ensures r == AfterScan(strict, Input(s, end), start, q)
    ensures r.Ok? ==> r.next == q + 1
  {
    if strict {
      var bad := CheckUtf8Strict(mem, base, start, q, s);
      if bad.Some? {
        return Fail(bad.value);
      }
    }
    assert mem[base + start..base + q] == s[start..q];
    return Ok(mem[base + start..base + q], q + 1);
  }

  method SlowPath(mem: array<byte>, base: nat, start: nat, q: nat, strict: bool, ghost s: bytes, ghost end: nat)
      returns (r: Parsed<bytes>)
    requires start <= q < |s| && end <= |s| && s[q] == BACKSLASH && Unread(mem, base, s, PADDING, start)
    modifies mem
    ensures r == AfterScan(strict, Input(s, end), start, q)
    ensures r.Ok? ==> q < r.next <= |s| && Unread(mem, base, s, PADDING, r.next)
    ensures OnlyWrote(mem, base, start, |s|)
  {
    var ck := new Utf8Checker();
    if strict {
      FeedUnread(ck, mem, base, start, q, s);
    }
    if ck.code.Some? {
      return Fail(Positioned(ck.code.value, ck.err));
    }
    assert mem[base + start..base + q] == s[start..q];
    var d := DecodeInPlace(mem, base, start, q, ck, strict, s);
    if d.Fail? {
      return Fail(d.error);
    }
    return Ok(mem[base + start..base + d.value], d.next);
  }

  /** parse_string_json5 with the cursor at the opening quote. */
  method ParseStringJson5(mem: array<byte>, base: nat, p: nat, end: nat, quote: byte, strict: bool, ghost s: bytes)
      returns (r: Parsed<bytes>)
    requires p <= |s| && end <= |s| && Unread(mem, base, s, PADDING, p)
    modifies mem
    ensures r == ParseString5(strict, Input(s, end), p, quote)
    ensures r.Ok? ==> Unread(mem, base, s, PADDING, r.next)
    ensures OnlyWrote(mem, base, p, |s|)
  {
    if p >= end {
      return Fail(Positioned(UnterminatedString, p + 1));
    }
    var d := ParseStringInPlace5(mem, base, p + 1, end, quote, strict, s);
    if d.Fail? {
      return Fail(d.error);
    }
    return Ok(mem[base + p + 1..base + d.value], d.next);
  }
}
