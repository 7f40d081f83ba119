/** Parsing a written string token gives back the string, with and without ascii mode. */
module StringRoundTrip {
  import opened Core
  import opened Grammar
  import opened Utf8
  import opened Strings
  import opened StringWriter

  lemma Nibbles(v: nat)
    requires v <= 0xFFFF
    ensures ((v / 4096 * 16 + v / 256 % 16) * 16 + v / 16 % 16) * 16 + v % 16 == v
  {
    assert v == 16 * (v / 16) + v % 16;
    assert v / 16 == 16 * (v / 256) + v / 16 % 16;
    assert v / 256 == 16 * (v / 4096) + v / 256 % 16;
  }

  lemma Hex4OfU4(s: bytes, p: nat, v: nat)
    requires v <= 0xFFFF && MatchAt(s, p, U4(v))
    ensures s[p] == BACKSLASH && s[p + 1] == LOWER_U && Hex4(s, p + 2) == Ok(v, p + 6)
  {
    var t := U4(v);
    assert s[p + 0] == t[0] && s[p + 1] == t[1] && s[p + 2] == t[2] && s[p + 3] == t[3] && s[p + 4] == t[4] &&
      s[p + 5] == t[5];
    Nibbles(v);
  }

  /** The escape written for a byte decodes to that byte. */
  lemma EscapeUndone(s: bytes, p: nat, c: byte)
    requires IsStop(c) && MatchAt(s, p, EscapeOf(c))
    ensures s[p] == BACKSLASH && Escape(s, p) == Ok([c], p + |EscapeOf(c)|)
  {
    var t := EscapeOf(c);
    assert s[p + 0] == t[0] && s[p + 1] == t[1];
    if |t| == 6 { Hex4OfU4(s, p, c); }
  }

  /** The \u form (or surrogate pair) written for a scalar value decodes to its UTF-8 encoding. */
  lemma AsciiTextUndone(s: bytes, p: nat, cp: nat)
    requires IsScalar(cp) && cp >= 0x80 && MatchAt(s, p, AsciiText(cp))
    ensures s[p] == BACKSLASH && Escape(s, p) == Ok(EncodeUtf8(cp).value, p + |AsciiText(cp)|)
  {
    hide Hex4, HexValue, U4, Encode2, Encode3, Encode4;
    if cp <= 0xFFFF {
      Hex4OfU4(s, p, cp);
    } else {
      var x := cp - 0x10000;
      var hi, lo := 0xD800 + x / 1024, 0xDC00 + x % 1024;
      MatchConcat(s, p, U4(hi), U4(lo));
      Hex4OfU4(s, p, hi);
      Hex4OfU4(s, p + 6, lo);
      assert JoinPair(hi, lo) == cp;
    }
  }

  lemma CharLenLocal(raw: bytes, i: nat, s: bytes, p: nat, n: nat)
    requires n == CharLen(raw, i) > 0 && MatchAt(s, p, raw[i..i + n])
    ensures CharLen(s, p) == n
  {
    var t := raw[i..i + n];
    assert s[p + 0] == t[0];
    if n > 1 { assert s[p + 1] == t[1]; }
    if n > 2 { assert s[p + 2] == t[2]; }
    if n > 3 { assert s[p + 3] == t[3]; }
  }

  /** A backslash seen between characters leaves the checker between characters; decoding goes on after the escape. */
  lemma EscapeStep(strict: bool, s: bytes, p: nat, ck: Checker, acc: bytes)
    requires Clean(ck) && p < |s| && s[p] == BACKSLASH && Escape(s, p).Ok?
    ensures Decode(strict, s, p, ck, acc) == Decode(strict, s, Escape(s, p).next, ck, acc + Escape(s, p).value)
  {
  }

  lemma {:induction false} EscapedPlain(raw: bytes, i: nat, j: nat)
    requires i <= j <= |raw| && forall k :: i <= k < j ==> !IsStop(raw[k])
    ensures Escaped(raw, i) == raw[i..j] + Escaped(raw, j)
    decreases j - i
  {
    hide Escaped, IsStop;
    if i == j {
      assert raw[i..j] + Escaped(raw, j) == Escaped(raw, j);
    } else {
      EscapedPlain(raw, i + 1, j);
      PlainByte(raw, i);
      ConsSlice(raw, i, j, Escaped(raw, j));
    }
  }

  lemma PlainByte(raw: bytes, i: nat)
    requires i < |raw| && !IsStop(raw[i])
    ensures Escaped(raw, i) == [raw[i]] + Escaped(raw, i + 1)
  {
  }

  lemma ConsSlice(raw: bytes, i: nat, j: nat, rest: bytes)
    requires i < j <= |raw|
    ensures [raw[i]] + (raw[i + 1..j] + rest) == raw[i..j] + rest
  {
  }

  /** A run of plain bytes that is a whole character (or any byte when the checker is off) is copied. */
  lemma PlainStep(strict: bool, raw: bytes, i: nat, n: nat, s: bytes, p: nat, ck: Checker, acc: bytes)
      returns (ck1: Checker)
    requires Clean(ck) && 0 < n && i + n <= |raw| && forall k :: i <= k < i + n ==> !IsStop(raw[k])
    requires strict ==> n == CharLen(raw, i)
    requires MatchAt(s, p, raw[i..i + n])
    ensures Clean(ck1) && Decode(strict, s, p, ck, acc) == Decode(strict, s, p + n, ck1, acc + raw[i..i + n])
  {
    ck1 := FeedRangeIf(strict, ck, s, p, p + n);
    if strict {
      CharLenLocal(raw, i, s, p, n);
      FeedChar(ck, s, p);
    }
    forall k | p <= k < p + n ensures s[k] == raw[i + (k - p)] {
      assert s[p + (k - p)] == raw[i..i + n][k - p];
    }
    assert s[p..p + n] == raw[i..i + n];
    DecodePlain(strict, s, p, p + n, ck, acc);
  }

  lemma SliceStep(acc: bytes, raw: bytes, i: nat, j: nat)
    requires i <= j <= |raw|
    ensures acc + raw[i..j] + raw[j..] == acc + raw[i..]
  {
  }

  lemma MatchFront(s: bytes, p: nat, t: bytes, u: bytes)
    requires MatchAt(s, p, t + u + [QUOTE])
    ensures MatchAt(s, p, t) && MatchAt(s, p + |t|, u + [QUOTE])
  {
    assert t + u + [QUOTE] == t + (u + [QUOTE]);
    MatchConcat(s, p, t, u + [QUOTE]);
  }

  lemma DecodeQuote(strict: bool, s: bytes, p: nat, ck: Checker, acc: bytes)
    requires Clean(ck) && MatchAt(s, p, [QUOTE])
    ensures Decode(strict, s, p, ck, acc) == Ok(acc, p + 1)
  {
    assert s[p + 0] == [QUOTE][0];
  }

  lemma {:induction false} DecodeEscaped(strict: bool, raw: bytes, i: nat, s: bytes, p: nat, ck: Checker, acc: bytes)
    requires i <= |raw| && Clean(ck) && MatchAt(s, p, Escaped(raw, i) + [QUOTE])
    requires strict ==> WellFormedFrom(raw, i)
    ensures Decode(strict, s, p, ck, acc) == Ok(acc + raw[i..], p + |Escaped(raw, i)| + 1)
    decreases |raw| - i
  {
    if i == |raw| {
      assert Escaped(raw, i) + [QUOTE] == [QUOTE] && acc + raw[i..] == acc;
      DecodeQuote(strict, s, p, ck, acc);
    } else {
      var t, j, ck1 := EscapedUnitStep(strict, raw, i, s, p, ck, acc);
      DecodeEscaped(strict, raw, j, s, p + |t|, ck1, acc + raw[i..j]);
      SliceStep(acc, raw, i, j);
    }
  }

  lemma EscapedStopStep(strict: bool, raw: bytes, i: nat, s: bytes, p: nat, ck: Checker, acc: bytes)
    requires i < |raw| && IsStop(raw[i]) && Clean(ck) && MatchAt(s, p, Escaped(raw, i) + [QUOTE])
    ensures Escaped(raw, i) == EscapeOf(raw[i]) + Escaped(raw, i + 1)
    ensures MatchAt(s, p + |EscapeOf(raw[i])|, Escaped(raw, i + 1) + [QUOTE]) && p + |EscapeOf(raw[i])| <= |s|
    ensures Decode(strict, s, p, ck, acc) == Decode(strict, s, p + |EscapeOf(raw[i])|, ck, acc + raw[i..i + 1])
    ensures WellFormedFrom(raw, i) ==> WellFormedFrom(raw, i + 1)
  {
    hide Decode, Escape, EscapeOf;
    MatchFront(s, p, EscapeOf(raw[i]), Escaped(raw, i + 1));
    EscapeUndone(s, p, raw[i]);
    EscapeStep(strict, s, p, ck, acc);
    assert raw[i..i + 1] == [raw[i]];
  }

  lemma EscapedUnitStep(strict: bool, raw: bytes, i: nat, s: bytes, p: nat, ck: Checker, acc: bytes)
      returns (t: bytes, j: nat, ck1: Checker)
    requires i < |raw| && Clean(ck) && MatchAt(s, p, Escaped(raw, i) + [QUOTE])
    requires strict ==> WellFormedFrom(raw, i)
    ensures i < j <= |raw| && Clean(ck1) && Escaped(raw, i) == t + Escaped(raw, j)
    ensures strict ==> WellFormedFrom(raw, j)
    ensures MatchAt(s, p + |t|, Escaped(raw, j) + [QUOTE])
    ensures Decode(strict, s, p, ck, acc) == Decode(strict, s, p + |t|, ck1, acc + raw[i..j])
  {
    hide Decode, Escaped, EscapeOf, MatchAt;
    if IsStop(raw[i]) {
      t, j, ck1 := EscapeOf(raw[i]), i + 1, ck;
      EscapedStopStep(strict, raw, i, s, p, ck, acc);
    } else {
      j := i + if strict then CharLen(raw, i) else 1;
      t := raw[i..j];
      CharIsPlain(strict, raw, i);
      ck1 := EscapedPlainStep(strict, raw, i, j, s, p, ck, acc);
    }
  }

  lemma CharIsPlain(strict: bool, raw: bytes, i: nat)
    requires i < |raw| && !IsStop(raw[i]) && (strict ==> CharLen(raw, i) > 0)
    ensures var n := if strict then CharLen(raw, i) else 1;
      forall k :: i <= k < i + n ==> !IsStop(raw[k])
  {
  }

  lemma EscapedPlainStep(strict: bool, raw: bytes, i: nat, j: nat, s: bytes, p: nat, ck: Checker, acc: bytes)
      returns (ck1: Checker)
    requires i < j <= |raw| && Clean(ck) && MatchAt(s, p, Escaped(raw, i) + [QUOTE])
    requires forall k :: i <= k < j ==> !IsStop(raw[k])
    requires strict ==> j - i == CharLen(raw, i)
    ensures Clean(ck1) && Escaped(raw, i) == raw[i..j] + Escaped(raw, j)
    ensures p + (j - i) <= |s| && MatchAt(s, p + (j - i), Escaped(raw, j) + [QUOTE])
    ensures Decode(strict, s, p, ck, acc) == Decode(strict, s, p + (j - i), ck1, acc + raw[i..j])
  {
    hide Escaped, Decode, MatchAt, IsStop, Clean;
    EscapedPlain(raw, i, j);
    MatchFront(s, p, raw[i..j], Escaped(raw, j));
    MatchFits(s, p, raw[i..j]);
    ck1 := PlainStep(strict, raw, i, j - i, s, p, ck, acc);
  }

  lemma {:induction false} DecodeAscii(strict: bool, raw: bytes, i: nat, s: bytes, p: nat, ck: Checker, acc: bytes)
    requires i <= |raw| && Clean(ck) && AsciiEscaped(raw, i).Text? && MatchAt(s, p, AsciiEscaped(raw, i).t + [QUOTE])
    ensures Decode(strict, s, p, ck, acc) == Ok(acc + raw[i..], p + |AsciiEscaped(raw, i).t| + 1)
    decreases |raw| - i
  {
    hide AsciiAt, Decode;
    if i == |raw| {
      assert AsciiEscaped(raw, i).t + [QUOTE] == [QUOTE] && acc + raw[i..] == acc;
      DecodeQuote(strict, s, p, ck, acc);
    } else {
      var st := AsciiAt(raw, i);
      var j := i + st.len;
      MatchFront(s, p, st.text, AsciiEscaped(raw, j).t);
      var ck1 := AsciiUnitStep(strict, raw, i, s, p, ck, acc);
      DecodeAscii(strict, raw, j, s, p + |st.text|, ck1, acc + raw[i..j]);
      SliceStep(acc, raw, i, j);
    }
  }

  lemma MatchFits(s: bytes, p: nat, t: bytes)
    requires MatchAt(s, p, t)
    ensures p + |t| <= |s|
  {
  }

  lemma AsciiUnitStep(strict: bool, raw: bytes, i: nat, s: bytes, p: nat, ck: Checker, acc: bytes)
      returns (ck1: Checker)
    requires i < |raw| && Clean(ck) && AsciiAt(raw, i).Step? && MatchAt(s, p, AsciiAt(raw, i).text)
    ensures Clean(ck1)
    ensures var st := AsciiAt(raw, i);
      p + |st.text| <= |s| &&
      Decode(strict, s, p, ck, acc) == Decode(strict, s, p + |st.text|, ck1, acc + raw[i..i + st.len])
  {
    hide Decode, Escape, EscapeOf, AsciiMultibyte, DecodeUtf8, EncodeUtf8, AsciiText, MatchAt;
    MatchFits(s, p, AsciiAt(raw, i).text);
    ck1 := ck;
    if raw[i] >= 0x80 {
      AsciiStepIsGrammar(raw, i);
      DecodeMatchesGrammar(raw, i);
      EncodeUndoesDecode(raw, i);
      MultibytePoint(raw, i);
      AsciiTextUndone(s, p, DecodeUtf8(raw, i, |raw|).cp);
      EscapeStep(strict, s, p, ck, acc);
    } else {
      assert raw[i..i + 1] == [raw[i]];
      if IsStop(raw[i]) {
        EscapeUndone(s, p, raw[i]);
        EscapeStep(strict, s, p, ck, acc);
      } else {
        ck1 := PlainStep(strict, raw, i, 1, s, p, ck, acc);
      }
    }
  }

  lemma MultibytePoint(raw: bytes, i: nat)
    requires i < |raw| && raw[i] >= 0x80 && CharLen(raw, i) > 0
    ensures DecodeUtf8(raw, i, |raw|).Good? && DecodeUtf8(raw, i, |raw|).cp >= 0x80
  {
    if IsUtf8Two(raw, i) { Two(raw[i], raw[i + 1]); }
    else if IsUtf8Three(raw, i) { Three(raw[i], raw[i + 1], raw[i + 2]); }
    else { Four(raw[i], raw[i + 1], raw[i + 2], raw[i + 3]); }
  }

  /**
   parse_string of write_escaped is the identity: for every byte string without ascii mode, for every string the
   ascii writer accepts with it; under strict UTF-8 for every well-formed string.
   */
  lemma StringRoundTrips(strict: bool, raw: bytes, ascii: bool, b: Input, p: nat)
    requires Token(raw, ascii).Text? && MatchAt(b.buf, p, Token(raw, ascii).t) && p < b.end
    requires strict ==> WellFormed(raw)
    ensures ParseString(strict, b, p) == Ok(raw, p + |Token(raw, ascii).t|)
  {
    var body := if ascii then AsciiEscaped(raw, 0).t else Escaped(raw, 0);
    assert Token(raw, ascii).t == [QUOTE] + body + [QUOTE];
    MatchFront(b.buf, p, [QUOTE], body);
    assert b.buf[p + 0] == [QUOTE][0];
    assert [] + raw[0..] == raw;
    if ascii {
      DecodeAscii(strict, raw, 0, b.buf, p + 1, Fresh, []);
    } else {
      DecodeEscaped(strict, raw, 0, b.buf, p + 1, Fresh, []);
    }
    FastPathAgrees(strict, b, p);
  }

  /** A token starts with a quote. */
  lemma TokenStartsWithQuote(raw: bytes, ascii: bool)
    requires Token(raw, ascii).Text?
    ensures |Token(raw, ascii).t| >= 2 && Token(raw, ascii).t[0] == QUOTE
  {
  }
}
