/**
 What a string token stands for, as a relation between a span of the text and a byte string, and the string parsers
 against it: the strings of section 7 of RFC 8259 and those of JSON5.
 */
module StringMeaning {
  import opened Core
  import opened Grammar
  import opened Utf8
  import opened Strings
  import opened Lexis
  import opened Utf8Gate

  // ---- RFC 8259 ----

  /** One character of a string, spelled by s[i..n], stands for the bytes u. */
  ghost predicate Char(s: bytes, i: nat, n: nat, u: bytes) {
    && i < n <= |s| && s[i] != '"' as int
    && (if s[i] != '\\' as int then s[i] >= 0x20 && n == i + 1 && u == [s[i]]
        else
          || (n == i + 2 && exists b: byte :: Simple(s[i + 1], b) && u == [b])
          || (exists cp: nat :: cp < 0x110000 && Unicode(s, i, n, cp) && u == Utf8Of(cp)))
  }

  /** The characters s[i..q] of a string stand for t. */
  ghost predicate Chars(s: bytes, i: nat, q: nat, t: bytes)
    decreases q - i
  {
    if i == q then t == []
    else exists n: nat, u: bytes :: i < n <= q && Char(s, i, n, u) && u <= t && Chars(s, n, q, t[|u|..])
  }

  /** The string token s[p..n], quotes included, stands for t. */
  ghost predicate StringIs(s: bytes, p: nat, n: nat, t: bytes) {
    && p + 2 <= n <= |s| && s[p] == '"' as int && s[n - 1] == '"' as int && Chars(s, p + 1, n - 1, t)
  }

  lemma HexMeans(c: byte, v: int)
    ensures HexDigit(c, v) <==> v >= 0 && HexValue(c) == v
    ensures IsHexDigit(c) <==> HexValue(c) >= 0
  {
  }

  lemma SimpleMeans(c: byte, b: byte)
    ensures Simple(c, b) <==> ShortEscape(c) != 0 && b == ShortEscape(c)
  {
  }

  lemma Hex4Means(s: bytes, i: nat, v: int)
    requires i + 1 < |s| && s[i] == BACKSLASH && s[i + 1] == LOWER_U
    ensures HexEscape(s, i, v) <==> Hex4(s, i + 2).Ok? && Hex4(s, i + 2).value == v
  {
    hide HexDigit, HexValue;
    if Hex4(s, i + 2).Ok? {
      var a, b, c, d := HexValue(s[i + 2]), HexValue(s[i + 3]), HexValue(s[i + 4]), HexValue(s[i + 5]);
      Nibbles(a, b, c, d);
      HexMeans(s[i + 2], a);
      HexMeans(s[i + 3], b);
      HexMeans(s[i + 4], c);
      HexMeans(s[i + 5], d);
    }
    if HexEscape(s, i, v) {
      HexMeans(s[i + 2], v / 4096);
      HexMeans(s[i + 3], v / 256 % 16);
      HexMeans(s[i + 4], v / 16 % 16);
      HexMeans(s[i + 5], v % 16);
      Joined(v);
    }
  }

  lemma Nibbles(a: int, b: int, c: int, d: int)
    requires 0 <= a < 16 && 0 <= b < 16 && 0 <= c < 16 && 0 <= d < 16
    ensures var v := ((a * 16 + b) * 16 + c) * 16 + d;
      0 <= v < 0x10000 && v / 4096 == a && v / 256 % 16 == b && v / 16 % 16 == c && v % 16 == d
  {
  }

  lemma Joined(v: int)
    requires 0 <= v < 0x10000
    ensures ((v / 4096 * 16 + v / 256 % 16) * 16 + v / 16 % 16) * 16 + v % 16 == v
  {
  }

  lemma Utf8OfIs(cp: nat)
    requires cp < 0x110000
    ensures EncodeUtf8(cp) == Some(Utf8Of(cp))
  {
    Quotients(cp);
    hide Shr12, Shr18;
    TopBits(cp);
  }

  lemma Quotients(cp: nat)
    ensures Shr12(cp) == cp / 4096 && Shr18(cp) == cp / 262144
  {
  }

  lemma TopBits(cp: nat)
    ensures cp < 0x800 ==> cp / 64 % 32 == cp / 64
    ensures cp < 0x10000 ==> cp / 4096 % 16 == cp / 4096
    ensures cp < 0x110000 ==> cp / 262144 % 8 == cp / 262144
  {
  }

  /** What the decoder makes of a `\u` escape that is spelled as it should be. */
  lemma UnicodeRead(s: bytes, i: nat, n: nat, cp: nat)
    requires cp < 0x110000 && Unicode(s, i, n, cp)
    ensures Escape(s, i) == Ok(Utf8Of(cp), n)
  {
    hide Hex4, HexDigit, EncodeUtf8, Utf8Of;
    NoShortU();
    Utf8OfIs(cp);
    if n == i + 6 {
      Hex4Means(s, i, cp);
    } else {
      var hi, lo :| HexEscape(s, i, hi) && HexEscape(s, i + 6, lo) && HighSurrogate(hi) && LowSurrogate(lo) &&
        cp == 0x10000 + (hi - 0xD800) * 0x400 + (lo - 0xDC00);
      Hex4Means(s, i, hi);
      Hex4Means(s, i + 6, lo);
    }
  }

  lemma PairIsUnicode(s: bytes, i: nat, hi: nat, lo: nat)
    requires HexEscape(s, i, hi) && HexEscape(s, i + 6, lo) && HighSurrogate(hi) && LowSurrogate(lo)
    ensures Unicode(s, i, i + 12, JoinPair(hi, lo))
  {
    hide HexEscape;
  }

  lemma UnicodeSound(s: bytes, i: nat) returns (cp: nat)
    requires i + 1 < |s| && s[i] == BACKSLASH && s[i + 1] == LOWER_U && Escape(s, i).Ok?
    ensures cp < 0x110000 && Unicode(s, i, Escape(s, i).next, cp) && Escape(s, i).value == Utf8Of(cp)
  {
    hide Hex4, HexEscape, EncodeUtf8, Utf8Of;
    NoShortU();
    var hi := Hex4(s, i + 2).value;
    Hex4Means(s, i, hi);
    if IsHighSurrogate(hi) {
      var lo := Hex4(s, i + 8).value;
      Hex4Means(s, i + 6, lo);
      cp := JoinPair(hi, lo);
      PairIsUnicode(s, i, hi, lo);
    } else {
      assert HexEscape(s, i, hi);
      cp := hi;
    }
    Utf8OfIs(cp);
  }

  lemma UnicodeFirst(s: bytes, i: nat, n: nat)
    ensures forall cp :: Unicode(s, i, n, cp) ==> i + 6 <= n <= |s| && s[i] == BACKSLASH && s[i + 1] == LOWER_U
  {
  }

  lemma NoShortU()
    ensures ShortEscape(LOWER_U) == 0
  {
  }

  /** The decoder takes one character at a time, for the bytes it stands for. */
  lemma CharMeans(s: bytes, i: nat, n: nat, u: bytes)
    requires i < |s| && s[i] != QUOTE
    ensures Unit(s, i) == Ok(u, n) <==> Char(s, i, n, u)
  {
    hide Unicode, Utf8Of, Escape;
    if s[i] == BACKSLASH {
      if Escape(s, i) == Ok(u, n) { EscapeSound(s, i); }
      if Char(s, i, n, u) { EscapeRead(s, i, n, u); }
    }
  }

  lemma EscapeSound(s: bytes, i: nat)
    requires i < |s| && s[i] == BACKSLASH && Escape(s, i).Ok?
    ensures Char(s, i, Escape(s, i).next, Escape(s, i).value)
  {
    hide Unicode, Utf8Of, Hex4, EncodeUtf8, ShortEscape, Simple;
    var c := At(s, i + 1);
    if ShortEscape(c) != 0 {
      SimpleMeans(c, ShortEscape(c));
    } else {
      var cp := UnicodeSound(s, i);
    }
  }

  lemma EscapeRead(s: bytes, i: nat, n: nat, u: bytes)
    requires i < |s| && s[i] == BACKSLASH && Char(s, i, n, u)
    ensures Escape(s, i) == Ok(u, n)
  {
    hide Unicode, Utf8Of, Hex4, EncodeUtf8, ShortEscape, Simple;
    if b: byte :| n == i + 2 && Simple(s[i + 1], b) && u == [b] {
      SimpleMeans(s[i + 1], b);
    } else {
      var cp: nat :| cp < 0x110000 && Unicode(s, i, n, cp) && u == Utf8Of(cp);
      UnicodeRead(s, i, n, cp);
    }
  }

  lemma {:induction false} CharsRead(s: bytes, i: nat, q: nat, t: bytes, acc: bytes)
    requires i <= q < |s| && s[q] == QUOTE && Chars(s, i, q, t)
    ensures Decode(false, s, i, Fresh, acc) == Ok(acc + t, q + 1)
    decreases q - i
  {
    hide Char, Unit, Decode;
    DecodeIs(false, s, i, Fresh, acc);
    if i == q {
      assert acc + t == acc;
    } else {
      var n: nat, u: bytes :| i < n <= q && Char(s, i, n, u) && u <= t && Chars(s, n, q, t[|u|..]);
      NoQuote(s, i, n, u);
      CharMeans(s, i, n, u);
      CharsRead(s, n, q, t[|u|..], acc + u);
      assert acc + u + t[|u|..] == acc + t;
    }
  }

  lemma NoQuote(s: bytes, i: nat, n: nat, u: bytes)
    requires Char(s, i, n, u)
    ensures i < |s| && s[i] != QUOTE
  {
  }

  lemma {:induction false} CharsSound(s: bytes, i: nat, acc: bytes) returns (t: bytes)
    requires i <= |s| && Decode(false, s, i, Fresh, acc).Ok?
    ensures var q := Decode(false, s, i, Fresh, acc).next - 1;
      i <= q < |s| && s[q] == QUOTE && Chars(s, i, q, t) && Decode(false, s, i, Fresh, acc).value == acc + t
    decreases |s| - i
  {
    hide Char, Unit, Decode;
    DecodeIs(false, s, i, Fresh, acc);
    var q := Decode(false, s, i, Fresh, acc).next - 1;
    if At(s, i) == QUOTE {
      t := [];
      assert acc + t == acc;
    } else {
      var x := Unit(s, i);
      if i < |s| {
        CharMeans(s, i, x.next, x.value);
        var rest := CharsSound(s, x.next, acc + x.value);
        t := x.value + rest;
        assert t[|x.value|..] == rest;
        assert acc + x.value + rest == acc + t;
      } else {
        NoUnit(s);
      }
    }
  }

  lemma NoUnit(s: bytes)
    ensures Unit(s, |s|).Fail?
  {
  }

  /**
   The string parser reads what the standard says the token stands for: it accepts the string tokens, of every length
   and spelling, with their values, and in strict mode those whose value is well-formed UTF-8.
   */
  lemma StringMeans(strict: bool, b: Input, p: nat, n: nat, t: bytes)
    requires p < b.end
    ensures ParseString(strict, b, p) == Ok(t, n) <==> StringIs(b.buf, p, n, t) && (strict ==> WellFormed(t))
  {
    hide ParseString, Decode, WellFormed, Chars;
    var s := b.buf;
    StrictIsWellFormed(b, p);
    if s[p] == QUOTE {
      FastPathAgrees(false, b, p);
      if ParseString(false, b, p) == Ok(t, n) {
        var u := CharsSound(s, p + 1, []);
        assert [] + u == u;
      }
      if StringIs(s, p, n, t) {
        CharsRead(s, p + 1, n - 1, t, []);
        assert [] + t == t;
      }
    } else {
      NotAString(strict, b, p);
      NotAString(false, b, p);
    }
  }

  lemma NotAString(strict: bool, b: Input, p: nat)
    requires p < b.end && b.buf[p] != QUOTE
    ensures ParseString(strict, b, p).Fail?
  {
  }

  // ---- JSON5 ----

  /** `\` and a line break, a carriage return and line feed being one. */
  predicate Continuation(s: bytes, i: nat, n: nat) {
    && i + 1 < |s|
    && (|| (n == i + 2 && s[i + 1] == '\n' as int)
        || (n == i + 2 && s[i + 1] == '\r' as int && !(i + 2 < |s| && s[i + 2] == '\n' as int))
        || (n == i + 3 <= |s| && s[i + 1] == '\r' as int && s[i + 2] == '\n' as int)
        || (n == i + 4 && LineSeparator(s, i + 1)))
  }

  /** The escapes of one letter that JSON5 has beyond RFC 8259; `\0` is none in front of a digit. */
  predicate Simple5(s: bytes, i: nat, b: byte) {
    && i + 1 < |s|
    && (|| (s[i + 1] == '\'' as int && b == 0x27)
        || (s[i + 1] == 'v' as int && b == 0x0B)
        || (s[i + 1] == '0' as int && b == 0x00 && !(i + 2 < |s| && Digit(s[i + 2]))))
  }

  /** `\xHH`. */
  predicate HexPair(s: bytes, i: nat, v: byte) {
    && i + 4 <= |s| && s[i + 1] == 'x' as int
    && HexDigit(s[i + 2], v / 16) && HexDigit(s[i + 3], v % 16)
  }

  /** A backslash in front of anything without a meaning of its own. */
  predicate Identity(s: bytes, i: nat) {
    && i + 1 < |s| && !LineBreak(s, i + 1) && !IsSimple(s[i + 1]) && !Digit(s[i + 1])
    && s[i + 1] != '\'' as int && s[i + 1] != 'v' as int && s[i + 1] != 'x' as int && s[i + 1] != 'u' as int
  }

  /** The escape s[i..n], its backslash at i, stands for the bytes u. */
  ghost predicate Escaped5(s: bytes, i: nat, n: nat, u: bytes)
    requires i < n <= |s|
  {
    || (n == i + 2 && exists b: byte :: (Simple(s[i + 1], b) || Simple5(s, i, b)) && u == [b])
    || (n == i + 4 && exists v: byte :: HexPair(s, i, v) && u == [v])
    || (exists cp: nat :: cp < 0x110000 && Unicode(s, i, n, cp) && u == Utf8Of(cp))
    || (n == i + 2 && Identity(s, i) && u == [s[i + 1]])
    || (Continuation(s, i, n) && u == [])
  }

  /** One character of a JSON5 string in the given quotes. */
  ghost predicate Char5(s: bytes, i: nat, n: nat, quote: byte, u: bytes) {
    && i < n <= |s| && s[i] != quote
    && (if s[i] != '\\' as int then s[i] != '\n' as int && s[i] != '\r' as int && n == i + 1 && u == [s[i]]
        else Escaped5(s, i, n, u))
  }

  ghost predicate Chars5(s: bytes, i: nat, q: nat, quote: byte, t: bytes)
    decreases q - i
  {
    if i == q then t == []
    else exists n: nat, u: bytes :: i < n <= q && Char5(s, i, n, quote, u) && u <= t && Chars5(s, n, q, quote, t[|u|..])
  }

  ghost predicate String5Is(s: bytes, p: nat, n: nat, quote: byte, t: bytes) {
    p + 2 <= n <= |s| && s[p] == quote && s[n - 1] == quote && Chars5(s, p + 1, n - 1, quote, t)
  }

  lemma BoundedHex(s: bytes, p: nat)
    ensures Hex4Bounded(s, p, |s|).Ok? <==> Hex4(s, p).Ok?
  {
  }

  /** The two `\u` decoders accept the same. */
  lemma UnicodeAlike(s: bytes, i: nat)
    requires i + 1 < |s| && s[i] == BACKSLASH && s[i + 1] == LOWER_U
    ensures var x := Escape5(s, i, |s|); var y := Escape(s, i); (x.Ok? <==> y.Ok?) && (x.Ok? ==> x == y)
  {
    hide Hex4, Hex4Bounded, EncodeUtf8, HexValue, JoinPair;
    NoShortU();
    BoundedHex(s, i + 2);
    BoundedHex(s, i + 8);
  }

  lemma Escape5Sound(s: bytes, i: nat)
    requires i < |s| && s[i] == BACKSLASH && Escape5(s, i, |s|).Ok?
    ensures Escaped5(s, i, Escape5(s, i, |s|).next, Escape5(s, i, |s|).value)
  {
    hide Unicode, Utf8Of, ShortEscape, Simple, UnicodeEscape5, Escape, HexDigit, HexValue;
    var c := s[i + 1];
    if c == LOWER_U {
      UnicodeAlike(s, i);
      var cp := UnicodeSound(s, i);
    } else {
      ShortIsSimple(c);
      if c == 0x78 && i + 4 <= |s| {
        HexPairMeans(s, i);
      }
    }
  }

  lemma ShortIsSimple(c: byte)
    ensures IsSimple(c) <==> ShortEscape(c) != 0
    ensures ShortEscape(c) != 0 ==>
      && Simple(c, ShortEscape(c)) && !Digit(c) && c < 0x80
      && c != 0x78 && c != LOWER_U && c != LF && c != CR && c != APOSTROPHE && c != 0x76
    ensures forall b :: Simple(c, b) ==> b == ShortEscape(c) && b != 0
  {
  }

  lemma HexPairMeans(s: bytes, i: nat)
    requires i + 4 <= |s| && s[i + 1] == 0x78
    ensures forall v :: HexPair(s, i, v) <==>
      HexValue(s[i + 2]) >= 0 && HexValue(s[i + 3]) >= 0 && v == HexValue(s[i + 2]) * 16 + HexValue(s[i + 3])
  {
    hide HexDigit, HexValue;
    forall v: byte ensures HexPair(s, i, v) <==>
      HexValue(s[i + 2]) >= 0 && HexValue(s[i + 3]) >= 0 && v == HexValue(s[i + 2]) * 16 + HexValue(s[i + 3])
    {
      HexMeans(s[i + 2], v / 16);
      HexMeans(s[i + 3], v % 16);
    }
  }

  lemma Escape5Read(s: bytes, i: nat, n: nat, u: bytes)
    requires i < n <= |s| && s[i] == BACKSLASH && Escaped5(s, i, n, u)
    ensures Escape5(s, i, |s|) == Ok(u, n)
  {
    hide Unicode, Utf8Of, ShortEscape, Simple, UnicodeEscape5, Escape, HexDigit, HexValue, HexPair;
    UnicodeFirst(s, i, n);
    if cp: nat :| cp < 0x110000 && Unicode(s, i, n, cp) && u == Utf8Of(cp) {
      UnicodeAlike(s, i);
      UnicodeRead(s, i, n, cp);
    } else {
      var c := s[i + 1];
      ShortIsSimple(c);
      if v: byte :| n == i + 4 && HexPair(s, i, v) && u == [v] {
        PairFirst(s, i, v);
        HexPairMeans(s, i);
      }
    }
  }

  lemma PairFirst(s: bytes, i: nat, v: byte)
    requires HexPair(s, i, v)
    ensures i + 4 <= |s| && s[i + 1] == 0x78
  {
  }

  lemma Char5Means(s: bytes, i: nat, n: nat, quote: byte, u: bytes)
    requires i < |s| && s[i] != quote
    ensures Unit5(s, i, |s|) == Ok(u, n) <==> Char5(s, i, n, quote, u)
  {
    hide Escape5, Escaped5;
    if s[i] == BACKSLASH {
      if Escape5(s, i, |s|) == Ok(u, n) { Escape5Sound(s, i); }
      if Char5(s, i, n, quote, u) { Escape5Read(s, i, n, u); }
    }
  }

  lemma {:induction false} Chars5Read(s: bytes, i: nat, q: nat, quote: byte, t: bytes, acc: bytes)
    requires i <= q < |s| && s[q] == quote && Chars5(s, i, q, quote, t)
    ensures Decode5(false, s, i, |s|, quote, Fresh, acc) == Ok(acc + t, q + 1)
    decreases q - i
  {
    hide Char5, Unit5, Decode5;
    Decode5Is(false, s, i, |s|, quote, Fresh, acc);
    if i == q {
      assert acc + t == acc;
    } else {
      var n: nat, u: bytes :| i < n <= q && Char5(s, i, n, quote, u) && u <= t && Chars5(s, n, q, quote, t[|u|..]);
      NoQuote5(s, i, n, quote, u);
      Char5Means(s, i, n, quote, u);
      Chars5Read(s, n, q, quote, t[|u|..], acc + u);
      assert acc + u + t[|u|..] == acc + t;
    }
  }

  lemma NoQuote5(s: bytes, i: nat, n: nat, quote: byte, u: bytes)
    requires Char5(s, i, n, quote, u)
    ensures i < |s| && s[i] != quote
  {
  }

  lemma {:induction false} Chars5Sound(s: bytes, i: nat, quote: byte, acc: bytes) returns (t: bytes)
    requires i <= |s| && Decode5(false, s, i, |s|, quote, Fresh, acc).Ok?
    ensures var r := Decode5(false, s, i, |s|, quote, Fresh, acc);
      i < r.next <= |s| && s[r.next - 1] == quote && Chars5(s, i, r.next - 1, quote, t) && r.value == acc + t
    decreases |s| - i
  {
    hide Char5, Unit5, Decode5;
    Decode5Is(false, s, i, |s|, quote, Fresh, acc);
    if s[i] == quote {
      t := [];
      assert acc + t == acc;
    } else {
      var x := Unit5(s, i, |s|);
      Char5Means(s, i, x.next, quote, x.value);
      var rest := Chars5Sound(s, x.next, quote, acc + x.value);
      t := x.value + rest;
      assert t[|x.value|..] == rest;
      assert acc + x.value + rest == acc + t;
    }
  }

  /** The JSON5 string parser reads what the token stands for, in either quotes. */
  lemma String5Means(s: bytes, p: nat, n: nat, quote: byte, t: bytes)
    requires p < |s| && s[p] == quote
    ensures ParseString5(false, Whole(s), p, quote) == Ok(t, n) <==> String5Is(s, p, n, quote, t)
  {
    hide Decode5, Chars5;
    if ParseString5(false, Whole(s), p, quote) == Ok(t, n) {
      var u := Chars5Sound(s, p + 1, quote, []);
      assert [] + u == u;
    }
    if String5Is(s, p, n, quote, t) {
      Chars5Read(s, p + 1, n - 1, quote, t, []);
      assert [] + t == t;
    }
  }

  // ---- hex escapes beyond ASCII ----

  /** `\xHH` of a value from 0x80 on. */
  predicate WideHex(s: bytes, i: nat) {
    i + 4 <= |s| && s[i] == '\\' as int && s[i + 1] == 'x' as int && !HexDigitBelow8(s[i + 2])
  }

  predicate HexDigitBelow8(c: byte) { '0' as int <= c <= '7' as int }

  /** A character as JSON5 has it, where `\xHH` stands for the code point U+00HH. */
  ghost predicate StandardChar5(s: bytes, i: nat, n: nat, quote: byte, u: bytes) {
    if i + 4 <= |s| && s[i] == '\\' as int && s[i + 1] == 'x' as int then
      n == i + 4 && exists v: byte :: HexPair(s, i, v) && u == Utf8Of(v)
    else Char5(s, i, n, quote, u)
  }

  ghost predicate StandardChars5(s: bytes, i: nat, q: nat, quote: byte, t: bytes)
    decreases q - i
  {
    if i == q then t == []
    else exists n: nat, u: bytes ::
      i < n <= q && StandardChar5(s, i, n, quote, u) && u <= t && StandardChars5(s, n, q, quote, t[|u|..])
  }

  /** No character of the string is a hex escape from 0x80 on. */
  ghost predicate NoWideHex(s: bytes, i: nat, q: nat, quote: byte)
    decreases q - i
  {
    || i == q
    || (!WideHex(s, i) && exists n: nat, u: bytes ::
          i < n <= q && Char5(s, i, n, quote, u) && NoWideHex(s, n, q, quote))
  }

  lemma Char5Unique(s: bytes, i: nat, n: nat, n': nat, quote: byte, u: bytes, u': bytes)
    requires Char5(s, i, n, quote, u) && Char5(s, i, n', quote, u')
    ensures n == n' && u == u'
  {
    hide Char5, Unit5;
    NoQuote5(s, i, n, quote, u);
    Char5Means(s, i, n, quote, u);
    Char5Means(s, i, n', quote, u');
  }

  /** On one character the two readings end alike, and the standard's is longer on a wide escape only. */
  lemma CharReadings(s: bytes, i: nat, n: nat, n': nat, quote: byte, u: bytes, u': bytes)
    requires Char5(s, i, n, quote, u) && StandardChar5(s, i, n', quote, u')
    ensures n == n' && if WideHex(s, i) then |u'| == |u| + 1 else u == u'
  {
    if i + 4 <= |s| && s[i] == BACKSLASH && s[i + 1] == 0x78 {
      var v: byte :| HexPair(s, i, v) && u' == Utf8Of(v);
      PairValue(s, i, v);
      hide Unicode, HexPair, Utf8Of;
      XIsHexPair(s, i, n, quote, u, v);
    } else {
      Char5Unique(s, i, n, n', quote, u, u');
    }
  }

  lemma PairValue(s: bytes, i: nat, v: byte)
    requires HexPair(s, i, v)
    ensures v < 0x80 <==> HexDigitBelow8(s[i + 2])
    ensures if v < 0x80 then Utf8Of(v) == [v] else |Utf8Of(v)| == 2
  {
  }

  lemma XIsHexPair(s: bytes, i: nat, n: nat, quote: byte, u: bytes, v: byte)
    requires i + 4 <= |s| && s[i] == BACKSLASH && s[i + 1] == 0x78
    requires Char5(s, i, n, quote, u) && HexPair(s, i, v)
    ensures n == i + 4 && u == [v]
  {
    hide HexPair, Unicode;
    Char5Unique(s, i, n, i + 4, quote, u, [v]);
  }

  lemma {:induction false} Readings(s: bytes, i: nat, q: nat, quote: byte, t: bytes, t': bytes)
    requires i <= q && Chars5(s, i, q, quote, t) && StandardChars5(s, i, q, quote, t')
    ensures |t| <= |t'| && (NoWideHex(s, i, q, quote) ==> t == t') && (|t| == |t'| ==> NoWideHex(s, i, q, quote))
    decreases q - i
  {
    hide Char5, StandardChar5, WideHex;
    if i < q {
      var n: nat, u: bytes :| i < n <= q && Char5(s, i, n, quote, u) && u <= t && Chars5(s, n, q, quote, t[|u|..]);
      var n': nat, u': bytes :| i < n' <= q && StandardChar5(s, i, n', quote, u') && u' <= t' &&
        StandardChars5(s, n', q, quote, t'[|u'|..]);
      CharReadings(s, i, n, n', quote, u, u');
      Readings(s, n, q, quote, t[|u|..], t'[|u'|..]);
      if NoWideHex(s, i, q, quote) {
        var m: nat, w: bytes :| i < m <= q && Char5(s, i, m, quote, w) && NoWideHex(s, m, q, quote);
        Char5Unique(s, i, n, m, quote, u, w);
        assert t == u + t[|u|..] && t' == u' + t'[|u'|..];
      }
    }
  }

  lemma {:induction false} NarrowIsStandard(s: bytes, i: nat, q: nat, quote: byte, t: bytes)
    requires i <= q && Chars5(s, i, q, quote, t) && NoWideHex(s, i, q, quote)
    ensures StandardChars5(s, i, q, quote, t)
    decreases q - i
  {
    hide Char5, StandardChar5, WideHex;
    if i < q {
      var n: nat, u: bytes :| i < n <= q && Char5(s, i, n, quote, u) && u <= t && Chars5(s, n, q, quote, t[|u|..]);
      var m: nat, w: bytes :| i < m <= q && Char5(s, i, m, quote, w) && NoWideHex(s, m, q, quote);
      Char5Unique(s, i, n, m, quote, u, w);
      NarrowCharIsStandard(s, i, n, quote, u);
      NarrowIsStandard(s, n, q, quote, t[|u|..]);
    }
  }

  lemma NarrowCharIsStandard(s: bytes, i: nat, n: nat, quote: byte, u: bytes)
    requires Char5(s, i, n, quote, u) && !WideHex(s, i)
    ensures StandardChar5(s, i, n, quote, u)
  {
    hide Char5;
    if i + 4 <= |s| && s[i] == BACKSLASH && s[i + 1] == 0x78 {
      var v := XValue(s, i, n, quote, u);
      PairValue(s, i, v);
    }
  }

  lemma XValue(s: bytes, i: nat, n: nat, quote: byte, u: bytes) returns (v: byte)
    requires Char5(s, i, n, quote, u) && i + 4 <= |s| && s[i] == BACKSLASH && s[i + 1] == 0x78
    ensures n == i + 4 && HexPair(s, i, v) && u == [v]
  {
    hide Unicode, HexPair;
    UnicodeFirst(s, i, n);
    v := u[0];
  }

  /**
   A JSON5 string has the value the standard gives it if and only if no character of it is `\xHH` from 0x80 on: the
   library takes HH for a byte, where JSON5 has the code point U+00HH.
   */
  lemma HexIsCodePoint(s: bytes, p: nat, n: nat, quote: byte, t: bytes)
    requires p < |s| && s[p] == quote && ParseString5(false, Whole(s), p, quote) == Ok(t, n)
    ensures StandardChars5(s, p + 1, n - 1, quote, t) <==> NoWideHex(s, p + 1, n - 1, quote)
  {
    hide Chars5, StandardChars5, NoWideHex, ParseString5;
    String5Means(s, p, n, quote, t);
    if StandardChars5(s, p + 1, n - 1, quote, t) { Readings(s, p + 1, n - 1, quote, t, t); }
    if NoWideHex(s, p + 1, n - 1, quote) { NarrowIsStandard(s, p + 1, n - 1, quote, t); }
  }

  /** `"\xE9"` is read as the byte E9, which is not the U+00E9 of the standard. */
  lemma HexEscapeIsByte()
    ensures var s: bytes := [QUOTE, BACKSLASH, 0x78, 0x45, 0x39, QUOTE];
      ParseString5(false, Whole(s), 0, QUOTE) == Ok([0xE9], 6) && !StandardChars5(s, 1, 5, QUOTE, [0xE9])
  {
    var s: bytes := [QUOTE, BACKSLASH, 0x78, 0x45, 0x39, QUOTE];
    assert Unit5(s, 1, 6) == Ok([0xE9], 5);
    var none: bytes := [];
    Decode5Is(false, s, 1, 6, QUOTE, Fresh, none);
    assert none + [0xE9] == [0xE9];
    Decode5Is(false, s, 5, 6, QUOTE, Fresh, [0xE9]);
    HexIsCodePoint(s, 0, 6, QUOTE, [0xE9]);
    assert WideHex(s, 1);
  }
}
