/**
 The reader's string tokens against the parser's. The reader finds the closing quote first and decodes a buffered
 copy; the parser decodes in one pass. They accept the same strings with the same values.
 */
module StreamStrings {
  import opened Core
  import opened Grammar
  import opened Utf8
  import opened Strings
  import opened StreamSpec

  /** The checker over the token is the checker over the stream, positions apart. */
  ghost predicate SameChecker(a: Checker, c: Checker, d: nat) {
    && a.need == c.need && a.code.Some? == c.code.Some?
    && (a.need > 0 ==> a.c1lo == c.c1lo && a.c1hi == c.c1hi && a.leadCode == c.leadCode && c.lead == a.lead + d)
  }

  lemma FeedSame(a: Checker, c: Checker, d: nat, b: byte, pos: nat)
    requires SameChecker(a, c, d)
    ensures SameChecker(Feed(a, b, pos), Feed(c, b, pos + d), d)
    ensures SameChecker(End(a), End(c), d)
  {
  }

  // ---- where the raw scan stops ----

  lemma HexRaw(s: bytes, p: nat)
    requires p <= |s| && Hex4(s, p).Ok?
    ensures RawEnd(s, p) == RawEnd(s, p + 4)
  {
    assert RawEnd(s, p) == RawEnd(s, p + 1);
    assert RawEnd(s, p + 1) == RawEnd(s, p + 2);
    assert RawEnd(s, p + 2) == RawEnd(s, p + 3);
    assert RawEnd(s, p + 3) == RawEnd(s, p + 4);
  }

  /** A valid escape holds no quote the raw scan would stop at. */
  lemma EscapeRaw(s: bytes, p: nat)
    requires p < |s| && s[p] == BACKSLASH && Escape(s, p).Ok?
    ensures RawEnd(s, p) == RawEnd(s, Escape(s, p).next)
  {
    assert RawEnd(s, p) == RawEnd(s, p + 2);
    if ShortEscape(At(s, p + 1)) == 0 {
      HexRaw(s, p + 2);
      var h := Hex4(s, p + 2);
      if IsHighSurrogate(h.value) {
        assert RawEnd(s, h.next) == RawEnd(s, h.next + 2);
        HexRaw(s, h.next + 2);
      }
    }
  }

  /** The parser's decoder stops at the quote the raw scan finds. */
  lemma {:induction false} DecodeStopsAtRaw(strict: bool, s: bytes, p: nat, ck: Checker, acc: bytes)
    requires p <= |s| && Decode(strict, s, p, ck, acc).Ok?
    ensures RawEnd(s, p) == Decode(strict, s, p, ck, acc).next - 1
    decreases |s| - p
  {
    var c := At(s, p);
    if c != QUOTE {
      var u := Unit(s, p);
      if c == BACKSLASH { EscapeRaw(s, p); }
      DecodeStopsAtRaw(strict, s, u.next, FeedIf(strict, ck, c, p), acc + u.value);
    }
  }

  // ---- the buffered token ----

  /** t is the stream from b on. */
  ghost predicate Copies(t: bytes, s: bytes, b: nat) {
    b + |t| <= |s| && forall k {:trigger t[k]} :: 0 <= k < |t| ==> t[k] == s[b + k]
  }

  lemma CopyAt(t: bytes, s: bytes, b: nat, k: nat)
    requires Copies(t, s, b) && k < |t|
    ensures b + |t| <= |s| && At(t, k) == At(s, b + k) && t[k] == s[b + k]
  {
  }

  lemma HexCopies(t: bytes, s: bytes, b: nat, i: nat)
    requires Copies(t, s, b)
    ensures Hex4(t, i).Ok? ==> Hex4(s, b + i) == Ok(Hex4(t, i).value, b + i + 4)
    ensures Hex4(s, b + i).Ok? && i + 4 <= |t| ==> Hex4(t, i) == Ok(Hex4(s, b + i).value, i + 4)
  {
    if i + 3 < |t| {
      assert t[i] == s[b + i] && t[i + 1] == s[b + (i + 1)] && t[i + 2] == s[b + (i + 2)] && t[i + 3] == s[b + (i + 3)];
    }
  }

  /** What an escape that opens with a high surrogate comes to. */
  lemma PairEscape(s: bytes, p: nat)
    requires p < |s| && ShortEscape(At(s, p + 1)) == 0 && At(s, p + 1) == LOWER_U
    requires Hex4(s, p + 2).Ok? && IsHighSurrogate(Hex4(s, p + 2).value)
    ensures var l := Hex4(s, p + 8);
      if At(s, p + 6) == BACKSLASH && At(s, p + 7) == LOWER_U && l.Ok? && IsLowSurrogate(l.value)
      then Escape(s, p) == Encoded(JoinPair(Hex4(s, p + 2).value, l.value), p + 12)
      else Escape(s, p).Fail?
  {
    hide EncodeUtf8, JoinPair, ShortEscape, HexValue;
  }

  /** The second half of a surrogate pair. */
  lemma PairCopies(t: bytes, s: bytes, b: nat, i: nat)
    requires Copies(t, s, b) && i < |t| && ShortEscape(At(t, i + 1)) == 0 && At(t, i + 1) == LOWER_U
    requires Hex4(t, i + 2).Ok? && IsHighSurrogate(Hex4(t, i + 2).value) &&
      Hex4(s, b + i + 2) == Ok(Hex4(t, i + 2).value, b + i + 6)
    requires i + 12 <= |t|
    ensures Escape(t, i).Ok? <==> Escape(s, b + i).Ok?
    ensures Escape(t, i).Ok? ==> Escape(s, b + i) == Ok(Escape(t, i).value, b + i + 12) && Escape(t, i).next == i + 12
  {
    hide Escape, Hex4, EncodeUtf8, JoinPair, ShortEscape, Copies;
    HexCopies(t, s, b, i + 8);
    CopyAt(t, s, b, i + 1);
    CopyAt(t, s, b, i + 6);
    CopyAt(t, s, b, i + 7);
    PairEscape(t, i);
    PairEscape(s, b + i);
  }

  lemma EscapeForward(t: bytes, s: bytes, b: nat, i: nat)
    requires Copies(t, s, b) && i < |t| && Escape(t, i).Ok?
    ensures Escape(s, b + i) == Ok(Escape(t, i).value, b + Escape(t, i).next)
  {
    hide HexValue;
    HexCopies(t, s, b, i + 2);
    assert t[i + 1] == s[b + (i + 1)];
    if ShortEscape(t[i + 1]) == 0 && IsHighSurrogate(Hex4(t, i + 2).value) {
      PairLength(t, i);
      PairCopies(t, s, b, i);
    } else {
      hide Hex4, EncodeUtf8, JoinPair;
    }
  }

  lemma PairLength(t: bytes, i: nat)
    requires i < |t| && Escape(t, i).Ok? && ShortEscape(At(t, i + 1)) == 0 && IsHighSurrogate(Hex4(t, i + 2).value)
    ensures i + 12 <= |t| && Escape(t, i).next == i + 12
  {
    hide EncodeUtf8, JoinPair, ShortEscape;
  }

  lemma EscapeBackward(t: bytes, s: bytes, b: nat, i: nat)
    requires Copies(t, s, b) && i < |t| && Escape(s, b + i).Ok? && Escape(s, b + i).next <= b + |t|
    ensures Escape(t, i) == Ok(Escape(s, b + i).value, Escape(s, b + i).next - b)
  {
    hide HexValue;
    HexCopies(t, s, b, i + 2);
    assert t[i + 1] == s[b + (i + 1)];
    if ShortEscape(t[i + 1]) == 0 && IsHighSurrogate(Hex4(s, b + i + 2).value) {
      PairLength(s, b + i);
      PairCopies(t, s, b, i);
    } else {
      hide Hex4, EncodeUtf8, JoinPair;
    }
  }

  lemma {:induction false} TokenAgrees(strict: bool, s: bytes, b: nat, t: bytes, i: nat, ck: Checker, cs: Checker,
      acc: bytes)
    requires Copies(t, s, b) && i <= |t| && RawEnd(s, b + i) == b + |t| < |s|
    requires SameChecker(ck, cs, b) && ck.code.None?
    ensures var d := DecodeToken(strict, t, i, ck, acc); var e := Decode(strict, s, b + i, cs, acc);
      (d.Ok? <==> e.Ok?) && (d.Ok? ==> e == Ok(d.value, b + |t| + 1))
    decreases |t| - i
  {
    hide Feed, End, Escape, ShortEscape;
    FeedSame(ck, cs, b, At(t, i), i);
    if i < |t| {
      var c := t[i];
      assert c == s[b + i] && c != QUOTE;
      var ck1, cs1 := FeedIf(strict, ck, c, i), FeedIf(strict, cs, c, b + i);
      if ck1.code.None? {
        if c == BACKSLASH {
          assert RawEnd(s, b + i) == RawEnd(s, b + i + 2);
          EscapeFits(t, s, b, i);
          if Escape(t, i).Ok? { TokenAgrees(strict, s, b, t, Escape(t, i).next, ck1, cs1, acc + Escape(t, i).value); }
        } else if c >= 0x20 {
          TokenAgrees(strict, s, b, t, i + 1, ck1, cs1, acc + [c]);
        }
      }
    }
  }

  lemma EscapeFits(t: bytes, s: bytes, b: nat, i: nat)
    requires Copies(t, s, b) && i < |t| && t[i] == BACKSLASH && RawEnd(s, b + i) == b + |t| < |s|
    ensures Escape(t, i).Ok? <==> Escape(s, b + i).Ok?
    ensures Escape(t, i).Ok? ==> Escape(s, b + i) == Ok(Escape(t, i).value, b + Escape(t, i).next)
    ensures Escape(t, i).Ok? ==> RawEnd(s, b + Escape(t, i).next) == b + |t|
  {
    if Escape(s, b + i).Ok? {
      EscapeRaw(s, b + i);
      EscapeBackward(t, s, b, i);
    }
    if Escape(t, i).Ok? {
      EscapeForward(t, s, b, i);
      EscapeRaw(s, b + i);
    }
  }

  /** Without a backslash the decode loop accepts what the fast path accepts. */
  lemma {:induction false} PlainToken(strict: bool, t: bytes, i: nat, ck: Checker, acc: bytes)
    requires i <= |t| && ck.code.None? && forall k :: i <= k < |t| ==> t[k] != BACKSLASH
    ensures var d := DecodeToken(strict, t, i, ck, acc);
      (d.Ok? <==> FirstControl(t, i) == |t| && EndIf(strict, FeedRangeIf(strict, ck, t, i, |t|)).code.None?)
      && (d.Ok? ==> d.value == acc + t[i..])
    decreases |t| - i
  {
    if i == |t| {
      assert acc + t[i..] == acc;
    } else {
      var ck1 := FeedIf(strict, ck, t[i], i);
      if ck1.code.Some? {
        if strict { FeedFailed(ck1, t, i + 1, |t|); }
      } else if t[i] >= 0x20 {
        PlainToken(strict, t, i + 1, ck1, acc + [t[i]]);
        assert acc + [t[i]] + t[i + 1..] == acc + t[i..];
      }
    }
  }

  lemma TokenValueIsDecode(strict: bool, t: bytes)
    ensures var r := TokenValue(strict, t); var d := DecodeToken(strict, t, 0, Fresh, []);
      (r.Ok? <==> d.Ok?) && (r.Ok? ==> r == d)
  {
    if !HasEscape(t) {
      PlainToken(strict, t, 0, Fresh, []);
      assert [] + t[0..] == t;
    }
  }

  lemma ClosedAgrees(strict: bool, s: bytes, b: nat, q: nat)
    requires b <= q < |s| && RawEnd(s, b) == q
    ensures var v := TokenValue(strict, s[b..q]); var d := Decode(strict, s, b, Fresh, []);
      (v.Ok? <==> d.Ok?) && (v.Ok? ==> d == Ok(v.value, q + 1))
  {
    hide TokenValue, Decode, DecodeToken;
    TokenValueIsDecode(strict, s[b..q]);
    TokenAgrees(strict, s, b, s[b..q], 0, Fresh, Fresh, []);
  }

  /** The reader and the parser accept the same string tokens, with the same value and the same end. */
  lemma StringsAgree(strict: bool, s: bytes, p: nat)
    requires p < |s| && s[p] == QUOTE
    ensures var r := StringAt(strict, s, p); var d := ParseString(strict, Whole(s), p);
      (r.Ok? <==> d.Ok?) && (r.Ok? ==> r == d)
  {
    hide ParseString, Decode, DecodeToken, TokenValue;
    FastPathAgrees(strict, Whole(s), p);
    var q := RawEnd(s, p + 1);
    if q == |s| {
      if Decode(strict, s, p + 1, Fresh, []).Ok? { DecodeStopsAtRaw(strict, s, p + 1, Fresh, []); }
    } else {
      ClosedAgrees(strict, s, p + 1, q);
    }
  }
}
