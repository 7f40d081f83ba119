/**
 When the reader and the parser give the same reason for refusing a string. The reader looks for the closing quote
 first and decodes afterwards; the parser stops at the first byte its block scan stops at. Their first errors, code and
 offset, differ in exactly two cases.
 */
module StringErrors {
  import opened Core
  import opened Grammar
  import opened Utf8
  import opened Strings
  import opened StreamSpec
  import opened StreamStrings

  // ---- the two cases ----

  /** The stream ends inside the string, behind a byte that stops the parser's scan. */
  predicate RunsOut(s: bytes, p: nat)
    requires p < |s|
  {
    RawEnd(s, p + 1) == |s| && StopAt(s, p + 1) < |s|
  }

  /** Strict mode, in a string that is closed and has an escape: ill-formed text in front of a raw control byte. */
  predicate ControlBehindBadText(strict: bool, s: bytes, p: nat)
    requires p < |s|
  {
    var q, c := RawEnd(s, p + 1), StopAt(s, p + 1);
    strict && q < |s| && c < |s| && s[c] < 0x20 && HasEscape(s[p + 1..q]) && FeedRange(Fresh, s, p + 1, c).code.Some?
  }

  predicate SplitErrors(strict: bool, s: bytes, p: nat)
    requires p < |s|
  {
    RunsOut(s, p) || ControlBehindBadText(strict, s, p)
  }

  // ---- which codes a checker reports ----

  predicate IsUtf8Code(c: Code) {
    c == Utf8Overlong || c == Utf8InvalidLead || c == Utf8InvalidContinuation || c == Utf8Surrogate ||
      c == Utf8ExceedsMax || c == Utf8Truncated
  }

  predicate Reports(ck: Checker) {
    (ck.code.Some? ==> IsUtf8Code(ck.code.value)) && (ck.leadCode.Some? ==> IsUtf8Code(ck.leadCode.value))
  }

  lemma FeedReports(ck: Checker, b: byte, pos: nat)
    requires Reports(ck)
    ensures Reports(Feed(ck, b, pos)) && Reports(End(ck))
  {
  }

  lemma {:induction false} RangeReports(ck: Checker, s: bytes, p: nat, q: nat)
    requires Reports(ck) && q <= |s|
    ensures Reports(FeedRange(ck, s, p, q))
    decreases q - p
  {
    hide Feed, Reports;
    if p < q {
      FeedReports(ck, s[p], p);
      RangeReports(Feed(ck, s[p], p), s, p + 1, q);
    }
  }

  predicate IsEscapeCode(c: Code) {
    c == InvalidHexDigit || c == InvalidEscapeChar || c == InvalidSurrogatePair || c == ExpectedLowSurrogate ||
      c == LoneLowSurrogate
  }

  lemma EscapeCodes(s: bytes, p: nat)
    requires p < |s| && Escape(s, p).Fail?
    ensures Escape(s, p).error.Positioned? && IsEscapeCode(Escape(s, p).error.code)
  {
    hide HexValue, EncodeUtf8, JoinPair;
  }

  /** The decoder never reports an unterminated string: past the text it finds a NUL. */
  lemma {:induction false} DecodeCodes(strict: bool, s: bytes, p: nat, ck: Checker, acc: bytes)
    requires p <= |s| && Reports(ck) && Decode(strict, s, p, ck, acc).Fail?
    ensures var e := Decode(strict, s, p, ck, acc).error; e.Positioned? && e.code != UnterminatedString
    decreases |s| - p
  {
    hide Decode, Escape, Feed, End;
    DecodeIs(strict, s, p, ck, acc);
    FeedReports(ck, At(s, p), p);
    var u := Unit(s, p);
    if At(s, p) == BACKSLASH && u.Fail? { EscapeCodes(s, p); }
    if At(s, p) != QUOTE && u.Ok? && FeedIf(strict, ck, At(s, p), p).code.None? {
      DecodeCodes(strict, s, u.next, FeedIf(strict, ck, At(s, p), p), acc + u.value);
    }
  }

  // ---- the token against the stream, errors included ----

  function MovedBytes(r: Parsed<bytes>, d: nat): Parsed<bytes> {
    match r
    case Ok(v, n) => Ok(v, n + d)
    case Fail(e) => Fail(Shifted(e, d))
  }

  function MovedNat(r: Parsed<nat>, d: nat): Parsed<nat> {
    match r
    case Ok(v, n) => Ok(v, n + d)
    case Fail(e) => Fail(Shifted(e, d))
  }

  /** The token t of s at b, with the closing quote behind it. */
  ghost predicate Closed(t: bytes, s: bytes, b: nat) {
    Copies(t, s, b) && b + |t| < |s| && s[b + |t|] == QUOTE
  }

  lemma DigitMoved(t: bytes, s: bytes, b: nat, i: nat)
    requires Closed(t, s, b) && i <= |t|
    ensures i < |t| ==> At(t, i) == At(s, b + i)
    ensures i == |t| ==> At(t, i) == 0 && At(s, b + i) == QUOTE && HexValue(At(t, i)) < 0 && HexValue(At(s, b + i)) < 0
  {
  }

  lemma HexMoved(t: bytes, s: bytes, b: nat, i: nat)
    requires Closed(t, s, b) && i <= |t|
    ensures Hex4(s, b + i) == MovedNat(Hex4(t, i), b)
    ensures Hex4(t, i).Ok? ==> i + 4 <= |t|
  {
    DigitMoved(t, s, b, i);
    if i + 1 <= |t| { DigitMoved(t, s, b, i + 1); }
    if i + 2 <= |t| { DigitMoved(t, s, b, i + 2); }
    if i + 3 <= |t| { DigitMoved(t, s, b, i + 3); }
    hide HexValue, Closed;
  }

  lemma ClosedInside(t: bytes, s: bytes, b: nat)
    requires Closed(t, s, b)
    ensures b + |t| < |s| && At(t, |t|) == 0 && At(s, b + |t|) == QUOTE && ShortEscape(0) == 0
  {
  }

  /** The raw scan takes a backslash and the byte behind it together. */
  lemma RawPair(s: bytes, p: nat)
    requires p < |s| && s[p] == BACKSLASH && RawEnd(s, p) < |s|
    ensures p + 2 <= RawEnd(s, p) == RawEnd(s, p + 2)
  {
  }

  /** What an escape with a high surrogate comes to, failures included. */
  lemma PairIs(s: bytes, p: nat)
    requires p < |s| && ShortEscape(At(s, p + 1)) == 0 && At(s, p + 1) == LOWER_U
    requires Hex4(s, p + 2).Ok? && IsHighSurrogate(Hex4(s, p + 2).value)
    ensures var l := Hex4(s, p + 8);
      Escape(s, p) ==
        if At(s, p + 6) != BACKSLASH || At(s, p + 7) != LOWER_U then Fail(Positioned(ExpectedLowSurrogate, p + 6))
        else if l.Fail? then Fail(l.error)
        else if IsLowSurrogate(l.value) then Encoded(JoinPair(Hex4(s, p + 2).value, l.value), p + 12)
        else Fail(Positioned(InvalidSurrogatePair, p + 12))
  {
    hide EncodeUtf8, JoinPair, ShortEscape, HexValue;
  }

  lemma SingleIs(s: bytes, p: nat)
    requires p < |s| && ShortEscape(At(s, p + 1)) == 0
    requires At(s, p + 1) != LOWER_U || Hex4(s, p + 2).Fail? || !IsHighSurrogate(Hex4(s, p + 2).value)
    ensures var h := Hex4(s, p + 2);
      Escape(s, p) ==
        if At(s, p + 1) != LOWER_U then Fail(Positioned(InvalidEscapeChar, p + 1))
        else if h.Fail? then Fail(h.error)
        else if IsLowSurrogate(h.value) then Fail(Positioned(LoneLowSurrogate, p + 6))
        else Encoded(h.value, p + 6)
  {
    hide EncodeUtf8, ShortEscape, HexValue;
  }

  /** The second half of a surrogate pair, seen in the token and in the stream. */
  lemma PairMoved(t: bytes, s: bytes, b: nat, i: nat)
    requires Closed(t, s, b) && i < |t| && t[i] == BACKSLASH && RawEnd(s, b + i) == b + |t| && i + 2 <= |t|
    requires ShortEscape(At(t, i + 1)) == 0 && At(t, i + 1) == LOWER_U && At(s, b + i + 1) == At(t, i + 1)
    requires Hex4(t, i + 2).Ok? && IsHighSurrogate(Hex4(t, i + 2).value)
    ensures Escape(s, b + i) == MovedBytes(Escape(t, i), b)
  {
    hide Escape, Hex4, EncodeUtf8, JoinPair, ShortEscape, Closed, HexValue, RawEnd;
    ClosedInside(t, s, b);
    DigitMoved(t, s, b, i);
    HexMoved(t, s, b, i + 2);
    PairIs(t, i);
    PairIs(s, b + i);
    DigitMoved(t, s, b, i + 6);
    RawPair(s, b + i);
    HexRaw(s, b + i + 2);
    if At(s, b + i + 6) == BACKSLASH {
      RawPair(s, b + i + 6);
      DigitMoved(t, s, b, i + 7);
      HexMoved(t, s, b, i + 8);
    }
  }

  /** An escape decodes, or fails, in the token as in the stream. */
  lemma EscapeMoved(t: bytes, s: bytes, b: nat, i: nat)
    requires Closed(t, s, b) && i < |t| && t[i] == BACKSLASH && RawEnd(s, b + i) == b + |t|
    ensures Escape(s, b + i) == MovedBytes(Escape(t, i), b)
    ensures Escape(t, i).Ok? ==> RawEnd(s, b + Escape(t, i).next) == b + |t| && Escape(t, i).next <= |t|
  {
    hide Escape, Hex4, ShortEscape, Closed, RawEnd;
    ClosedInside(t, s, b);
    DigitMoved(t, s, b, i);
    RawPair(s, b + i);
    DigitMoved(t, s, b, i + 1);
    if ShortEscape(At(t, i + 1)) == 0 {
      if At(t, i + 1) == LOWER_U { HexMoved(t, s, b, i + 2); }
      if At(t, i + 1) == LOWER_U && Hex4(t, i + 2).Ok? && IsHighSurrogate(Hex4(t, i + 2).value) {
        PairMoved(t, s, b, i);
      } else {
        SingleMoved(t, s, b, i);
      }
    } else {
      ShortMoved(t, s, b, i);
    }
    if Escape(t, i).Ok? { EscapeRaw(s, b + i); }
  }

  lemma SingleMoved(t: bytes, s: bytes, b: nat, i: nat)
    requires i < |t| && b + i < |s| && At(s, b + i + 1) == At(t, i + 1) && ShortEscape(At(t, i + 1)) == 0
    requires At(t, i + 1) == LOWER_U ==> Hex4(s, b + i + 2) == MovedNat(Hex4(t, i + 2), b)
    requires At(t, i + 1) != LOWER_U || Hex4(t, i + 2).Fail? || !IsHighSurrogate(Hex4(t, i + 2).value)
    ensures Escape(s, b + i) == MovedBytes(Escape(t, i), b)
  {
    hide Escape, Hex4, EncodeUtf8, ShortEscape, HexValue;
    SingleIs(t, i);
    SingleIs(s, b + i);
  }

  lemma ShortMoved(t: bytes, s: bytes, b: nat, i: nat)
    requires i < |t| && b + i < |s| && At(s, b + i + 1) == At(t, i + 1) && ShortEscape(At(t, i + 1)) != 0
    ensures Escape(s, b + i) == MovedBytes(Escape(t, i), b)
  {
    hide Hex4, EncodeUtf8, JoinPair;
  }

  /** The checker over the token is the checker over the stream, positions apart, down to the failure it records. */
  ghost predicate TwinChecker(a: Checker, c: Checker, d: nat) {
    SameChecker(a, c, d) && a.code == c.code && (a.code.Some? ==> c.err == a.err + d)
  }

  lemma FeedTwin(a: Checker, c: Checker, d: nat, b: byte, pos: nat)
    requires TwinChecker(a, c, d)
    ensures TwinChecker(Feed(a, b, pos), Feed(c, b, pos + d), d)
    ensures TwinChecker(End(a), End(c), d)
  {
  }

  lemma {:induction false} TokenMoved(strict: bool, s: bytes, b: nat, t: bytes, i: nat, ck: Checker, cs: Checker,
      acc: bytes)
    requires Closed(t, s, b) && i <= |t| && RawEnd(s, b + i) == b + |t| && TwinChecker(ck, cs, b)
    ensures var d := DecodeToken(strict, t, i, ck, acc); var e := Decode(strict, s, b + i, cs, acc);
      (d.Fail? <==> e.Fail?) && (d.Fail? ==> e.error == Shifted(d.error, b))
    decreases |t| - i
  {
    hide Feed, End, Escape, Decode, Closed, TwinChecker;
    DigitMoved(t, s, b, i);
    DecodeIs(strict, s, b + i, cs, acc);
    FeedTwin(ck, cs, b, At(t, i), i);
    if i == |t| {
      TwinFails(EndIf(strict, ck), EndIf(strict, cs), b);
      TwinFails(ck, cs, b);
    } else {
      var c := t[i];
      assert c != QUOTE;
      var ck1, cs1 := FeedIf(strict, ck, c, i), FeedIf(strict, cs, c, b + i);
      TwinFails(ck1, cs1, b);
      if ck1.code.None? {
        if c == BACKSLASH {
          EscapeMoved(t, s, b, i);
          if Escape(t, i).Ok? { TokenMoved(strict, s, b, t, Escape(t, i).next, ck1, cs1, acc + Escape(t, i).value); }
        } else if c >= 0x20 {
          assert RawEnd(s, b + i) == RawEnd(s, b + i + 1);
          TokenMoved(strict, s, b, t, i + 1, ck1, cs1, acc + [c]);
        }
      }
    }
  }

  lemma TwinFails(a: Checker, c: Checker, d: nat)
    requires TwinChecker(a, c, d)
    ensures a.code == c.code && (a.code.Some? ==> c.err == a.err + d)
  {
  }

  lemma FreshTwin(d: nat)
    ensures TwinChecker(Fresh, Fresh, d)
  {
  }

  lemma {:induction false} RangeTwin(t: bytes, s: bytes, b: nat, i: nat, n: nat, ck: Checker, cs: Checker)
    requires Copies(t, s, b) && i <= n <= |t| && TwinChecker(ck, cs, b)
    ensures TwinChecker(FeedRange(ck, t, i, n), FeedRange(cs, s, b + i, b + n), b)
    decreases n - i
  {
    hide Feed, TwinChecker;
    if i < n {
      assert t[i] == s[b + i];
      FeedTwin(ck, cs, b, t[i], i);
      RangeTwin(t, s, b, i + 1, n, Feed(ck, t[i], i), Feed(cs, s[b + i], b + i));
    }
  }

  // ---- the parser's scan, errors included ----

  /** A plain run that fails the checker fails scalar decoding with the same error. */
  lemma {:induction false} PlainFails(s: bytes, p: nat, q: nat, ck: Checker, acc: bytes)
    requires p <= q <= |s| && ck.code.None? && forall i :: p <= i < q ==> !IsStop(s[i])
    requires FeedRange(ck, s, p, q).code.Some?
    ensures Decode(true, s, p, ck, acc) == CkFail(FeedRange(ck, s, p, q))
    decreases q - p
  {
    hide Feed, Decode;
    DecodeIs(true, s, p, ck, acc);
    var ck1 := Feed(ck, s[p], p);
    if ck1.code.Some? { FeedFailed(ck1, s, p + 1, q); } else { PlainFails(s, p + 1, q, ck1, acc + [s[p]]); }
  }

  /** What scalar decoding makes of a raw control byte behind a plain run. */
  lemma ControlStops(strict: bool, s: bytes, b: nat, c: nat)
    requires b <= c < |s| && c == StopAt(s, b) && s[c] < 0x20
    ensures var k := FeedRangeIf(strict, Fresh, s, b, c);
      Decode(strict, s, b, Fresh, []) == if k.code.Some? then CkFail(k) else Fail(Positioned(UnescapedControl, c))
  {
    hide Decode, FeedRange, StopAt;
    var k := FeedRangeIf(strict, Fresh, s, b, c);
    DecodePlain(strict, s, b, c, Fresh, []);
    if k.code.Some? {
      PlainFails(s, b, c, Fresh, []);
    } else {
      DecodeIs(strict, s, c, k, [] + s[b..c]);
    }
  }

  /** Stopped by a backslash, the parser fails as scalar decoding does. */
  lemma BackslashFails(strict: bool, s: bytes, p: nat)
    requires p < |s| && s[p] == QUOTE && At(s, StopAt(s, p + 1)) == BACKSLASH && ParseString(strict, Whole(s), p).Fail?
    ensures ParseString(strict, Whole(s), p) == Decode(strict, s, p + 1, Fresh, [])
  {
    hide Decode, FeedRange, StopAt;
    var q := StopAt(s, p + 1);
    DecodePlain(strict, s, p + 1, q, Fresh, []);
    assert [] + s[p + 1..q] == s[p + 1..q];
    if FeedRangeIf(strict, Fresh, s, p + 1, q).code.Some? { PlainFails(s, p + 1, q, Fresh, []); }
  }

  // ---- the theorem ----

  /** A plain run holds no quote and no backslash, so the raw scan crosses it. */
  lemma {:induction false} RawCrosses(s: bytes, p: nat, q: nat)
    requires p <= q <= |s| && forall i :: p <= i < q ==> s[i] != QUOTE && s[i] != BACKSLASH
    ensures RawEnd(s, p) == RawEnd(s, q)
    decreases q - p
  {
    if p < q { RawCrosses(s, p + 1, q); }
  }

  /** The string never ends: the parser agrees only when nothing stops its scan earlier. */
  lemma OpenErrors(strict: bool, s: bytes, p: nat)
    requires p < |s| && s[p] == QUOTE && RawEnd(s, p + 1) == |s|
    ensures var d := ParseString(strict, Whole(s), p);
      d.Fail? && (d.error == Positioned(UnterminatedString, |s|) <==> StopAt(s, p + 1) == |s|)
  {
    hide Decode, FeedRange, StopAt, RawEnd;
    var q := StopAt(s, p + 1);
    StringsAgree(strict, s, p);
    RawCrosses(s, p + 1, q);
    if q < |s| && s[q] == QUOTE { RawAtQuote(s, q); }
    if q < |s| && s[q] == BACKSLASH {
      BackslashFails(strict, s, p);
      DecodeCodes(strict, s, p + 1, Fresh, []);
    }
  }

  lemma RawAtQuote(s: bytes, q: nat)
    requires q < |s| && s[q] == QUOTE
    ensures RawEnd(s, q) == q
  {
  }

  /** What the reader says of a closed string without an escape. */
  lemma PlainValueIs(strict: bool, t: bytes)
    requires !HasEscape(t) && TokenValue(strict, t).Fail?
    ensures var k, ck := FirstControl(t, 0), End(FeedRange(Fresh, t, 0, |t|));
      if k < |t| then TokenValue(strict, t) == Fail(Positioned(UnescapedControl, k))
      else strict && ck.code.Some? && TokenValue(strict, t) == Fail(Positioned(ck.code.value, ck.err))
  {
    hide FeedRange, Feed, End, FirstControl, HasEscape, DecodeToken;
  }

  lemma EscapedValueIs(strict: bool, t: bytes)
    requires HasEscape(t)
    ensures TokenValue(strict, t) == DecodeToken(strict, t, 0, Fresh, [])
  {
    hide DecodeToken, HasEscape;
  }

  lemma SliceClosed(s: bytes, b: nat, e: nat)
    requires b <= e < |s|
    ensures Copies(s[b..e], s, b) && (s[e] == QUOTE ==> Closed(s[b..e], s, b))
  {
  }

  lemma TokenIs(strict: bool, s: bytes, p: nat, e: nat)
    requires p < |s| && e == RawEnd(s, p + 1) < |s|
    ensures var v := TokenValue(strict, s[p + 1..e]);
      if v.Fail? then StringAt(strict, s, p) == Fail(Shifted(v.error, p + 1)) else StringAt(strict, s, p).Ok?
  {
    hide RawEnd, TokenValue, Shifted;
  }

  /** The reader on a closed string with a control byte and no escape. */
  lemma ControlToken(strict: bool, s: bytes, p: nat, e: nat, q: nat)
    requires p < |s| && e == RawEnd(s, p + 1) < |s| && !HasEscape(s[p + 1..e]) && p + 1 <= q < e
    requires StringAt(strict, s, p).Fail? && FirstControl(s[p + 1..e], 0) == q - (p + 1)
    ensures StringAt(strict, s, p) == Fail(Positioned(UnescapedControl, q))
  {
    hide RawEnd, TokenValue, HasEscape, FirstControl, StringAt;
    TokenIs(strict, s, p, e);
    PlainValueIs(strict, s[p + 1..e]);
  }

  /** Feed-and-end over the token against feed-and-end over the stream. */
  lemma TokenFed(s: bytes, b: nat, e: nat)
    requires b <= e <= |s|
    ensures var ck, cs := End(FeedRange(Fresh, s[b..e], 0, e - b)), End(FeedRange(Fresh, s, b, e));
      ck.code == cs.code && (ck.code.Some? ==> cs.err == ck.err + b)
  {
    hide FeedRange, Feed, End, TwinChecker;
    var t := s[b..e];
    FreshTwin(b);
    RangeTwin(t, s, b, 0, |t|, Fresh, Fresh);
    FeedTwin(FeedRange(Fresh, t, 0, |t|), FeedRange(Fresh, s, b, e), b, 0, 0);
    TwinFails(End(FeedRange(Fresh, t, 0, |t|)), End(FeedRange(Fresh, s, b, e)), b);
  }

  /** The reader on a closed string without controls and escapes. */
  lemma PlainToken(strict: bool, s: bytes, p: nat, e: nat)
    requires p < |s| && e == RawEnd(s, p + 1) < |s| && !HasEscape(s[p + 1..e])
    requires StringAt(strict, s, p).Fail? && FirstControl(s[p + 1..e], 0) == e - (p + 1)
    ensures var k := End(FeedRange(Fresh, s, p + 1, e));
      strict && k.code.Some? && StringAt(strict, s, p) == Fail(Positioned(k.code.value, k.err))
  {
    hide RawEnd, TokenValue, HasEscape, FirstControl, End, FeedRange, StringAt;
    TokenIs(strict, s, p, e);
    PlainValueIs(strict, s[p + 1..e]);
    TokenFed(s, p + 1, e);
  }

  /** A closed string without an escape. */
  lemma PlainErrors(strict: bool, s: bytes, p: nat, e: nat)
    requires p < |s| && s[p] == QUOTE && e == RawEnd(s, p + 1) < |s| && !HasEscape(s[p + 1..e])
    requires StringAt(strict, s, p).Fail?
    ensures ParseString(strict, Whole(s), p) == StringAt(strict, s, p)
  {
    hide *;
    var q := StopAt(s, p + 1);
    PlainStop(s, p + 1, e, q);
    if q < e {
      ControlToken(strict, s, p, e, q);
      ControlParse(strict, s, p);
    } else {
      PlainToken(strict, s, p, e);
      QuoteParse(s, p);
    }
  }

  lemma QuoteParse(s: bytes, p: nat)
    requires p < |s| && s[p] == QUOTE && StopAt(s, p + 1) < |s| && s[StopAt(s, p + 1)] == QUOTE
    ensures var k := End(FeedRange(Fresh, s, p + 1, StopAt(s, p + 1)));
      k.code.Some? ==> ParseString(true, Whole(s), p) == Fail(Positioned(k.code.value, k.err))
  {
    hide Decode, FeedRange, End;
  }

  lemma {:induction false} NoQuoteInside(s: bytes, b: nat, e: nat)
    requires b <= e < |s| && e == RawEnd(s, b) && !HasEscape(s[b..e])
    ensures forall i :: b <= i < e ==> s[i] != QUOTE
    decreases e - b
  {
    if b < e {
      assert s[b] == s[b..e][0];
      assert s[b + 1..e] == s[b..e][1..];
      NoQuoteInside(s, b + 1, e);
    }
  }

  /** The first control byte of the token is the first one of the stream. */
  lemma {:induction false} FirstControlIs(s: bytes, b: nat, e: nat, i: nat, q: nat)
    requires b + i <= q <= e <= |s| && (forall j :: b + i <= j < q ==> s[j] >= 0x20) && (q < e ==> s[q] < 0x20)
    ensures FirstControl(s[b..e], i) == q - b
    decreases q - b - i
  {
    if b + i < e { assert s[b..e][i] == s[b + i]; }
    if b + i < q { FirstControlIs(s, b, e, i + 1, q); }
  }

  /** Without a backslash, the parser's scan stops at a control byte of the token or at its closing quote. */
  lemma StopsInside(s: bytes, b: nat, e: nat)
    requires b <= e < |s| && e == RawEnd(s, b) && !HasEscape(s[b..e])
    ensures var q := StopAt(s, b);
      q <= e && (q < e ==> s[q] < 0x20) && (q == e ==> s[q] == QUOTE) && forall i :: b <= i < q ==> s[i] >= 0x20
  {
    NoQuoteInside(s, b, e);
    forall i | b <= i < e ensures s[i] != BACKSLASH { assert s[i] == s[b..e][i - b]; }
    if StopAt(s, b) > e { assert IsStop(s[e]); }
  }

  /** On a token without escapes both look for the first control byte. */
  lemma PlainStop(s: bytes, b: nat, e: nat, q: nat)
    requires b <= e < |s| && e == RawEnd(s, b) && !HasEscape(s[b..e]) && q == StopAt(s, b)
    ensures q <= e && (q < e ==> s[q] < 0x20) && (q == e ==> s[q] == QUOTE) && FirstControl(s[b..e], 0) == q - b
  {
    hide RawEnd, StopAt, HasEscape, FirstControl;
    StopsInside(s, b, e);
    FirstControlIs(s, b, e, 0, q);
  }

  /** Behind ill-formed text scalar decoding does not get to report the control byte. */
  lemma ControlFails(strict: bool, s: bytes, b: nat, c: nat)
    requires b <= c < |s| && c == StopAt(s, b) && s[c] < 0x20
    ensures var d := Decode(strict, s, b, Fresh, []);
      d.Fail? && (d.error == Positioned(UnescapedControl, c) <==> !(strict && FeedRange(Fresh, s, b, c).code.Some?))
  {
    hide Decode, FeedRange, StopAt;
    ControlStops(strict, s, b, c);
    RangeReports(Fresh, s, b, c);
  }

  /** A closed string with an escape: the reader fails as scalar decoding of the stream does. */
  lemma EscapedToken(strict: bool, s: bytes, p: nat, e: nat)
    requires p < |s| && e == RawEnd(s, p + 1) < |s| && HasEscape(s[p + 1..e]) && StringAt(strict, s, p).Fail?
    ensures Decode(strict, s, p + 1, Fresh, []) == Fail(StringAt(strict, s, p).error)
  {
    hide *;
    SliceClosed(s, p + 1, e);
    TokenIs(strict, s, p, e);
    EscapedValueIs(strict, s[p + 1..e]);
    FreshTwin(p + 1);
    TokenMoved(strict, s, p + 1, s[p + 1..e], 0, Fresh, Fresh, []);
  }

  lemma EscapedErrors(strict: bool, s: bytes, p: nat, e: nat)
    requires p < |s| && s[p] == QUOTE && e == RawEnd(s, p + 1) < |s| && HasEscape(s[p + 1..e])
    requires StringAt(strict, s, p).Fail?
    ensures var c, d := StopAt(s, p + 1), ParseString(strict, Whole(s), p);
      d.Fail? && (d.error == StringAt(strict, s, p).error <==>
        !(s[c] < 0x20 && strict && FeedRange(Fresh, s, p + 1, c).code.Some?))
  {
    hide FeedRange, StopAt, RawEnd, Decode, ParseString, StringAt, HasEscape;
    var c := StopAt(s, p + 1);
    StringsAgree(strict, s, p);
    EscapedToken(strict, s, p, e);
    StopsBefore(s, p + 1, e);
    if s[c] == BACKSLASH {
      BackslashFails(strict, s, p);
    } else {
      ControlFails(strict, s, p + 1, c);
      ControlParse(strict, s, p);
    }
  }

  lemma ControlParse(strict: bool, s: bytes, p: nat)
    requires p < |s| && s[p] == QUOTE && StopAt(s, p + 1) < |s| && s[StopAt(s, p + 1)] < 0x20
    ensures ParseString(strict, Whole(s), p) == Fail(Positioned(UnescapedControl, StopAt(s, p + 1)))
  {
    hide Decode, FeedRange;
  }

  /** With an escape in the token, the scan stops in front of the closing quote. */
  lemma StopsBefore(s: bytes, b: nat, e: nat)
    requires b <= e < |s| && e == RawEnd(s, b) && HasEscape(s[b..e])
    ensures var q := StopAt(s, b); q < e && (s[q] == BACKSLASH || s[q] < 0x20)
  {
    var q := StopAt(s, b);
    var k :| 0 <= k < e - b && s[b..e][k] == BACKSLASH;
    assert IsStop(s[b + k]);
    if s[q] == QUOTE {
      RawCrosses(s, b, q);
      RawAtQuote(s, q);
    }
  }

  /**
   Both refuse a string together; their first errors, code and offset, are equal if and only if neither of the two cases
   holds.
   */
  lemma SameStringError(strict: bool, s: bytes, p: nat)
    requires p < |s| && s[p] == QUOTE && StringAt(strict, s, p).Fail?
    ensures var r := StringAt(strict, s, p); var d := ParseString(strict, Whole(s), p);
      d.Fail? && (r.error == d.error <==> !SplitErrors(strict, s, p))
  {
    hide ParseString, FeedRange, StopAt, RawEnd, TokenValue, HasEscape;
    if RawEnd(s, p + 1) == |s| {
      OpenErrors(strict, s, p);
    } else if HasEscape(s[p + 1..RawEnd(s, p + 1)]) {
      StopsBefore(s, p + 1, RawEnd(s, p + 1));
      EscapedErrors(strict, s, p, RawEnd(s, p + 1));
    } else {
      PlainErrors(strict, s, p, RawEnd(s, p + 1));
    }
  }

  /** A control byte in a string that never ends: the parser stops at the control byte, the reader at the end. */
  lemma RunsOutSplits(strict: bool)
    ensures var s: bytes := [QUOTE, 0x61, 0x01];
      && ParseString(strict, Whole(s), 0) == Fail(Positioned(UnescapedControl, 2))
      && StringAt(strict, s, 0) == Fail(Positioned(UnterminatedString, 3))
  {
    hide FeedRange, Decode;
    var s: bytes := [QUOTE, 0x61, 0x01];
    assert RawEnd(s, 3) == 3;
    assert RawEnd(s, 2) == 3;
    assert StopAt(s, 2) == 2;
  }

  /** A stray continuation byte, a control byte and an escape: the parser reports the control, the reader the UTF-8. */
  lemma ControlBehindBadTextSplits()
    ensures var s: bytes := [QUOTE, 0x80, 0x01, BACKSLASH, 0x6E, QUOTE];
      && ParseString(true, Whole(s), 0) == Fail(Positioned(UnescapedControl, 2))
      && StringAt(true, s, 0) == Fail(Positioned(Utf8InvalidLead, 1))
  {
    hide FeedRange, Decode;
    var s: bytes := [QUOTE, 0x80, 0x01, BACKSLASH, 0x6E, QUOTE];
    assert StopAt(s, 2) == 2;
    assert RawEnd(s, 5) == 5;
    assert RawEnd(s, 3) == 5;
    assert RawEnd(s, 2) == 5;
    assert RawEnd(s, 1) == 5;
    var t := s[1..5];
    assert t == [0x80, 0x01, BACKSLASH, 0x6E];
    assert HasEscape(t) by { assert t[2] == BACKSLASH; }
    assert DecodeToken(true, t, 0, Fresh, []) == Fail(Positioned(Utf8InvalidLead, 0));
  }
}
