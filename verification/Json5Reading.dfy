/** The JSON5 parser against Json5Grammar: it reads exactly the texts of the grammar, for what they stand for. */
module Json5Reading {
  import opened Core
  import opened Grammar
  import opened Utf8
  import opened Strings
  import opened Json5Lexer
  import opened Lexis
  import opened StringMeaning
  import opened Json5Grammar

  // ---- characters ----

  predicate Scalar(cp: nat) { cp < 0x110000 && !HighSurrogate(cp) && !LowSurrogate(cp) }

  /** The decoder reads a scalar value from the bytes section 3 of RFC 3629 gives it. */
  lemma DecodeMeans(s: bytes, p: nat, cp: nat, n: nat)
    requires p <= n
    ensures DecodeUtf8(s, p, |s|) == Good(cp, n - p) <==> Scalar(cp) && p < n <= |s| && s[p..n] == Utf8Of(cp)
  {
    hide DecodeUtf8, EncodeUtf8, Utf8Of, CharLen;
    DecodeMatchesGrammar(s, p);
    if DecodeUtf8(s, p, |s|) == Good(cp, n - p) {
      CharLenFits(s, p);
      Utf8OfIs(cp);
    }
    if Scalar(cp) && p < n <= |s| && s[p..n] == Utf8Of(cp) {
      Utf8OfIs(cp);
      DecodeUndoesEncode(cp);
      DecodeMoved(s, p, n);
    }
  }

  lemma CharLenFits(s: bytes, p: nat)
    ensures CharLen(s, p) > 0 ==> p + CharLen(s, p) <= |s|
  {
  }

  lemma DecodeMoved(s: bytes, p: nat, n: nat)
    requires p < n <= |s| && DecodeUtf8(s[p..n], 0, n - p).Good? && DecodeUtf8(s[p..n], 0, n - p).len == n - p
    ensures DecodeUtf8(s, p, |s|) == DecodeUtf8(s[p..n], 0, n - p)
  {
    hide Join2, Join3, Join4;
    var t := s[p..n];
    assert forall i :: 0 <= i < |t| ==> t[i] == s[p + i];
  }

  /** The code points of white space are those the bytes of white space spell. */
  lemma WhiteCode(cp: nat)
    requires cp < 0x110000
    ensures IsWs5Unicode(cp) <==>
      var t := Utf8Of(cp); t == [0xC2, 0xA0] || (|t| == 3 && WhiteThree(t[0], t[1], t[2]))
  {
    if 0x80 <= cp < 0x800 {
      TwoBytes(cp);
    } else if 0x800 <= cp < 0x10000 {
      ThreeBytes(cp);
    }
  }

  lemma TwoBytes(cp: nat)
    requires 0x80 <= cp < 0x800
    ensures [0xC0 + cp / 64, 0x80 + cp % 64] == [0xC2, 0xA0] <==> cp == 0xA0
  {
    var t := [0xC0 + cp / 64, 0x80 + cp % 64];
    assert cp == 64 * (cp / 64) + cp % 64;
    if t == [0xC2, 0xA0] { assert t[0] == 0xC2 && t[1] == 0xA0; }
  }

  lemma ThreeBytes(cp: nat)
    requires 0x800 <= cp < 0x10000
    ensures IsWs5Unicode(cp) <==> WhiteThree(0xE0 + cp / 4096, 0x80 + cp / 64 % 64, 0x80 + cp % 64)
  {
    assert cp == 4096 * (cp / 4096) + 64 * (cp / 64 % 64) + cp % 64;
  }

  lemma WhiteAscii(s: bytes, p: nat, n: nat)
    requires p < |s| && s[p] < 0x80
    ensures White(s, p, n) <==> IsWs5(s[p]) && n == p + 1
  {
  }

  lemma WhiteWide(s: bytes, p: nat, n: nat)
    requires p < |s| && s[p] >= 0x80
    ensures White(s, p, n) <==> WideWs(s, p, |s|) > 0 && n == p + WideWs(s, p, |s|)
  {
    hide DecodeUtf8, Utf8Of, WhiteThree, IsWs5Unicode;
    var d := DecodeUtf8(s, p, |s|);
    if d.Good? {
      DecodeMeans(s, p, d.cp, p + d.len);
      WhiteCode(d.cp);
      WhiteBytes(s, p, p + d.len, Utf8Of(d.cp));
    }
    if White(s, p, n) {
      var cp := WhiteDecodes(s, p, n);
      DecodeMeans(s, p, cp, n);
      WhiteCode(cp);
    }
  }

  lemma WhiteBytes(s: bytes, p: nat, n: nat, t: bytes)
    requires p <= n <= |s| && s[p..n] == t && |t| > 0 && t[0] >= 0x80
    ensures White(s, p, n) <==> t == [0xC2, 0xA0] || (|t| == 3 && WhiteThree(t[0], t[1], t[2]))
  {
    hide WhiteThree;
    assert forall i :: 0 <= i < |t| ==> t[i] == s[p + i];
    if t == [0xC2, 0xA0] { assert t[0] == 0xC2 && t[1] == 0xA0; }
  }

  /** Wide white space is the encoding of a code point. */
  lemma WhiteDecodes(s: bytes, p: nat, n: nat) returns (cp: nat)
    requires p < |s| && s[p] >= 0x80 && White(s, p, n)
    ensures Scalar(cp) && p < n <= |s| && s[p..n] == Utf8Of(cp)
  {
    if n == p + 2 {
      cp := 0xA0;
      assert s[p..n] == [0xC2, 0xA0];
    } else {
      var a: int, b: int, c: int := s[p], s[p + 1], s[p + 2];
      cp := 4096 * a + 64 * b + c - 0xE2080;
      assert s[p..n] == [s[p], s[p + 1], s[p + 2]];
    }
  }

  // ---- white space and comments ----

  lemma BreakMeans(s: bytes, i: nat)
    ensures LineEndsAt(s, i, |s|) <==> i >= |s| || LineBreak(s, i)
  {
  }

  lemma {:induction false} LineEndIs(s: bytes, i: nat, n: nat)
    requires i <= n <= |s| && (forall k :: i <= k < n ==> !LineBreak(s, k)) && (n == |s| || LineBreak(s, n))
    ensures LineEnd(s, i, |s|) == n
    decreases n - i
  {
    hide LineBreak, LineEndsAt;
    BreakMeans(s, i);
    if i < n { LineEndIs(s, i + 1, n); }
  }

  lemma {:induction false} LineEndSound(s: bytes, i: nat)
    requires i <= |s|
    ensures var n := LineEnd(s, i, |s|);
      i <= n <= |s| && (forall k :: i <= k < n ==> !LineBreak(s, k)) && (n == |s| || LineBreak(s, n))
    decreases |s| - i
  {
    hide LineBreak, LineEndsAt;
    BreakMeans(s, i);
    if i < |s| && !LineBreak(s, i) { LineEndSound(s, i + 1); }
  }

  lemma {:induction false} BlockEndIs(s: bytes, i: nat, n: nat)
    requires i <= n && ClosesBlock(s, n) && forall k :: i <= k < n ==> !ClosesBlock(s, k)
    ensures BlockEnd(s, i, |s|) == n
    decreases n - i
  {
    if i < n {
      assert !ClosesBlock(s, i);
      BlockEndIs(s, i + 1, n);
    }
  }

  lemma {:induction false} BlockEndSound(s: bytes, i: nat)
    requires i <= |s|
    ensures var n := BlockEnd(s, i, |s|);
      n + 1 < |s| ==> i <= n && ClosesBlock(s, n) && forall k :: i <= k < n ==> !ClosesBlock(s, k)
    decreases |s| - i
  {
    if i + 1 < |s| && !ClosesBlock(s, i) { BlockEndSound(s, i + 1); }
  }

  /** The pieces that start at p, by the first bytes, and how the scanner goes on behind them. */
  lemma WhiteIs(s: bytes, p: nat, n: nat)
    requires p < |s|
    ensures White(s, p, n) <==> if IsWs5(s[p]) then n == p + 1 else WideWs(s, p, |s|) > 0 && n == p + WideWs(s, p, |s|)
  {
    hide White, DecodeUtf8;
    if s[p] < 0x80 { WhiteAscii(s, p, n); } else { WhiteWide(s, p, n); }
  }

  lemma NoWhiteAtEnd(s: bytes, p: nat, n: nat)
    requires p >= |s|
    ensures !Piece(s, p, n) && !White(s, p, n)
  {
  }

  lemma WhiteBounds(s: bytes, p: nat, n: nat)
    requires White(s, p, n)
    ensures p < n <= |s| && s[p] != SLASH
  {
  }

  lemma {:induction false} TriviaRead(s: bytes, p: nat, q: nat)
    requires p <= |s| && Blank5(s, p, q) && !OpensBlank(s, q)
    ensures q <= |s| && Trivia(s, p, |s|) == Ok((), q)
    decreases q - p
  {
    hide White, WideWs, LineBreak, IsWs5, LineEnd, BlockEnd;
    if p == q {
      if p < |s| { forall n: nat ensures !White(s, p, n) || OpensBlank(s, q) {} }
      StopsTrivia(s, p);
    } else {
      var n: nat :| p < n <= q && Piece(s, p, n) && Blank5(s, n, q);
      if p >= |s| { NoWhiteAtEnd(s, p, n); }
      if White(s, p, n) {
        WhiteIs(s, p, n);
        WhiteBounds(s, p, n);
      } else if LineComment(s, p, n) {
        LineEndIs(s, p + 2, n);
        NotWhite(s, p);
      } else {
        BlockEndIs(s, p + 2, n - 2);
        NotWhite(s, p);
      }
      TriviaRead(s, n, q);
    }
  }

  lemma NotWhite(s: bytes, p: nat)
    requires p < |s| && s[p] == SLASH
    ensures !IsWs5(s[p]) && WideWs(s, p, |s|) == 0
  {
  }

  lemma StopsTrivia(s: bytes, p: nat)
    requires p <= |s|
    ensures !OpensBlank(s, p) ==> Trivia(s, p, |s|) == Ok((), p)
  {
    hide White, WideWs, IsWs5;
    if p < |s| {
      WhiteIs(s, p, p + 1);
      WhiteIs(s, p, p + WideWs(s, p, |s|));
    } else {
      NoWide(s, p);
    }
  }

  lemma NoWide(s: bytes, p: nat)
    requires p >= |s|
    ensures WideWs(s, p, |s|) == 0
  {
  }

  lemma {:induction false} TriviaSound(s: bytes, p: nat)
    requires p <= |s| && Trivia(s, p, |s|).Ok?
    ensures var q := Trivia(s, p, |s|).next;
      Trivia(s, p, |s|) == Ok((), q) && p <= q <= |s| && Blank5(s, p, q) && !OpensBlank(s, q)
    decreases |s| - p
  {
    hide White, WideWs, LineBreak, IsWs5, LineEnd, BlockEnd, ClosesBlock, OpensBlank;
    var q := Trivia(s, p, |s|).next;
    if p < |s| && IsWs5(s[p]) {
      WhiteIs(s, p, p + 1);
      TriviaSound(s, p + 1);
      assert Piece(s, p, p + 1);
    } else if WideWs(s, p, |s|) > 0 {
      var n := p + WideWs(s, p, |s|);
      NoWide2(s, p);
      WhiteIs(s, p, n);
      TriviaSound(s, n);
      assert Piece(s, p, n);
    } else if p + 1 < |s| && s[p] == SLASH && s[p + 1] == SLASH {
      var n := LineEnd(s, p + 2, |s|);
      LineEndSound(s, p + 2);
      TriviaSound(s, n);
      assert Piece(s, p, n);
    } else if p + 1 < |s| && s[p] == SLASH && s[p + 1] == STAR {
      var n := BlockEnd(s, p + 2, |s|) + 2;
      BlockEndSound(s, p + 2);
      TriviaSound(s, n);
      assert Piece(s, p, n);
    } else {
      OpensNothing(s, p);
    }
  }

  lemma NoWide2(s: bytes, p: nat)
    ensures WideWs(s, p, |s|) > 0 ==> p < |s|
  {
  }

  lemma OpensNothing(s: bytes, p: nat)
    requires p <= |s| && (p < |s| ==> !IsWs5(s[p])) && WideWs(s, p, |s|) == 0
    requires !(p + 1 < |s| && s[p] == SLASH && (s[p + 1] == SLASH || s[p + 1] == STAR))
    ensures !OpensBlank(s, p)
  {
    hide White, WideWs, IsWs5;
    forall n: nat ensures !White(s, p, n) {
      if p < |s| { WhiteIs(s, p, n); } else { NoWhiteAtEnd(s, p, n); }
    }
  }

  // ---- names ----

  /** The escapes of an identifier are those of a string. */
  lemma IdentEscapeMeans(s: bytes, p: nat, n: nat, cp: nat)
    requires p < |s| && s[p] == BACKSLASH
    ensures IdentEscape(s, p, |s|) == IdentAt(cp, n, true) <==> cp < 0x110000 && Unicode(s, p, n, cp)
  {
    hide Hex4, Hex4Bounded, HexEscape;
    UnicodeFirst(s, p, n);
    if p + 1 < |s| && s[p + 1] == LOWER_U {
      HexAt(s, p);
      var h := Hex4Bounded(s, p + 2, |s|);
      if h.Ok? && IsHighSurrogate(h.value) && p + 12 <= |s| && s[p + 6] == BACKSLASH && s[p + 7] == LOWER_U {
        HexAt(s, p + 6);
        var l := Hex4Bounded(s, p + 8, |s|);
        if l.Ok? && IsLowSurrogate(l.value) {
          PairIsUnicode(s, p, h.value, l.value);
        }
      } else if h.Ok? && IsHighSurrogate(h.value) {
        NoEscape(s, p + 6);
      }
    }
  }

  lemma NoEscape(s: bytes, q: nat)
    requires !(q + 6 <= |s| && s[q] == BACKSLASH && s[q + 1] == LOWER_U)
    ensures forall v :: !HexEscape(s, q, v)
  {
  }

  lemma HexAt(s: bytes, p: nat)
    requires p + 1 < |s| && s[p] == BACKSLASH && s[p + 1] == LOWER_U
    ensures var h := Hex4Bounded(s, p + 2, |s|);
      (forall v :: HexEscape(s, p, v) <==> h.Ok? && h.value == v) && (h.Ok? ==> p + 6 <= |s|)
  {
    hide Hex4, HexEscape, HexValue;
    BoundedHex(s, p + 2);
    forall v ensures HexEscape(s, p, v) <==> Hex4(s, p + 2).Ok? && Hex4(s, p + 2).value == v { Hex4Means(s, p, v); }
  }

  lemma NameCharMeans(s: bytes, p: nat, n: nat, cp: nat)
    requires p < |s|
    ensures NameChar(s, p, n, cp) <==> IdentUnit(s, p, |s|) == IdentAt(cp, n, s[p] == BACKSLASH)
    ensures NameChar(s, p, n, cp) ==>
      (s[p] != BACKSLASH ==> s[p..n] == Utf8Of(cp)) && EncodeUtf8(cp) == Some(Utf8Of(cp))
  {
    hide DecodeUtf8, IdentEscape, Unicode, Utf8Of, EncodeUtf8;
    UnicodeFirst(s, p, n);
    if s[p] == BACKSLASH {
      IdentEscapeMeans(s, p, n, cp);
      EscapeFlag(s, p);
    } else {
      if p <= n { DecodeMeans(s, p, cp, n); }
    }
    if cp < 0x110000 { Utf8OfIs(cp); }
  }

  lemma EscapeFlag(s: bytes, p: nat)
    ensures IdentEscape(s, p, |s|).IdentAt? ==> IdentEscape(s, p, |s|).escaped
  {
  }

  /** What the identifier scanner does at p. */
  lemma IdentStep(cfg: Config, s: bytes, p: nat, first: bool, acc: bytes)
    requires p <= |s|
    ensures var r := IdentRun(cfg, s, p, |s|, first, acc);
      if p < |s| && IdentUnit(s, p, |s|).IdentAt? &&
         (if first then cfg.identStart(IdentUnit(s, p, |s|).cp) else cfg.identPart(IdentUnit(s, p, |s|).cp))
      then
        var u := IdentUnit(s, p, |s|);
        NameChar(s, p, u.next, u.cp) && r == IdentRun(cfg, s, u.next, |s|, false, acc + Utf8Of(u.cp))
      else r == (acc, p)
  {
    hide IdentUnit, EncodeUtf8, Utf8Of, NameChar;
    if p < |s| && IdentUnit(s, p, |s|).IdentAt? {
      var u := IdentUnit(s, p, |s|);
      UnitFlag(s, p);
      NameCharMeans(s, p, u.next, u.cp);
    }
  }

  lemma UnitFlag(s: bytes, p: nat)
    requires p < |s|
    ensures IdentUnit(s, p, |s|).IdentAt? ==> IdentUnit(s, p, |s|).escaped == (s[p] == BACKSLASH)
  {
    hide IdentEscape, DecodeUtf8;
    EscapeFlag(s, p);
  }

  lemma CharAt(s: bytes, p: nat, n: nat, cp: nat)
    requires NameChar(s, p, n, cp)
    ensures p < n <= |s| && IdentUnit(s, p, |s|).IdentAt?
    ensures IdentUnit(s, p, |s|).cp == cp && IdentUnit(s, p, |s|).next == n
  {
    hide NameChar, IdentUnit;
    CharBounds(s, p, n, cp);
    NameCharMeans(s, p, n, cp);
  }

  lemma CharBounds(s: bytes, p: nat, n: nat, cp: nat)
    requires NameChar(s, p, n, cp)
    ensures p < n <= |s|
  {
    UnicodeFirst(s, p, n);
  }

  lemma {:induction false} RestRead(cfg: Config, s: bytes, p: nat, q: nat, t: bytes, acc: bytes)
    requires p <= q <= |s| && NameRest(cfg, s, p, q, t) && !NameGoesOn(cfg, s, q)
    ensures IdentRun(cfg, s, p, |s|, false, acc) == (acc + t, q)
    decreases q - p
  {
    hide NameChar, IdentRun, IdentUnit, Utf8Of;
    IdentStep(cfg, s, p, false, acc);
    if p == q {
      assert acc + t == acc;
    } else {
      var n: nat, cp: nat :| p < n <= q && cp < 0x110000 && NameChar(s, p, n, cp) && cfg.identPart(cp) &&
        Utf8Of(cp) <= t && NameRest(cfg, s, n, q, t[|Utf8Of(cp)|..]);
      CharAt(s, p, n, cp);
      RestRead(cfg, s, n, q, t[|Utf8Of(cp)|..], acc + Utf8Of(cp));
      assert acc + Utf8Of(cp) + t[|Utf8Of(cp)|..] == acc + t;
    }
  }

  lemma {:induction false} RestSound(cfg: Config, s: bytes, p: nat, acc: bytes) returns (t: bytes)
    requires p <= |s|
    ensures var r := IdentRun(cfg, s, p, |s|, false, acc);
      p <= r.1 <= |s| && NameRest(cfg, s, p, r.1, t) && !NameGoesOn(cfg, s, r.1) && r.0 == acc + t
    decreases |s| - p
  {
    hide NameChar, IdentRun, IdentUnit, Utf8Of;
    IdentStep(cfg, s, p, false, acc);
    if p < |s| && IdentUnit(s, p, |s|).IdentAt? && cfg.identPart(IdentUnit(s, p, |s|).cp) {
      var u := IdentUnit(s, p, |s|);
      CharBounds(s, p, u.next, u.cp);
      var rest := RestSound(cfg, s, u.next, acc + Utf8Of(u.cp));
      t := Utf8Of(u.cp) + rest;
      assert t[|Utf8Of(u.cp)|..] == rest;
      assert acc + Utf8Of(u.cp) + rest == acc + t;
    } else {
      t := [];
      assert acc + t == acc;
      EndsHere(cfg, s, p);
    }
  }

  lemma EndsHere(cfg: Config, s: bytes, p: nat)
    requires !(p < |s| && IdentUnit(s, p, |s|).IdentAt? && cfg.identPart(IdentUnit(s, p, |s|).cp))
    ensures !NameGoesOn(cfg, s, p)
  {
    hide NameChar, IdentUnit;
    if n: nat, cp: nat :| NameChar(s, p, n, cp) && cfg.identPart(cp) { CharAt(s, p, n, cp); }
  }

  /** The identifier scanner reads names. */
  lemma NameMeans(cfg: Config, s: bytes, p: nat, q: nat, t: bytes)
    requires p < |s|
    ensures ParseIdentKey(cfg, s, p, |s|) == Ok(t, q) <==> Name(cfg, s, p, q, t)
  {
    hide NameChar, IdentRun, IdentUnit, Utf8Of, NameRest;
    IdentStep(cfg, s, p, true, []);
    var none: bytes := [];
    if ParseIdentKey(cfg, s, p, |s|) == Ok(t, q) {
      var u := IdentUnit(s, p, |s|);
      CharBounds(s, p, u.next, u.cp);
      var rest := RestSound(cfg, s, u.next, none + Utf8Of(u.cp));
      assert none + Utf8Of(u.cp) + rest == Utf8Of(u.cp) + rest;
      assert t[|Utf8Of(u.cp)|..] == rest;
    }
    if Name(cfg, s, p, q, t) {
      var n: nat, cp: nat :| p < n <= q && cp < 0x110000 && NameChar(s, p, n, cp) && cfg.identStart(cp) &&
        Utf8Of(cp) <= t && NameRest(cfg, s, n, q, t[|Utf8Of(cp)|..]);
      CharAt(s, p, n, cp);
      RestBounds(cfg, s, n, q, t[|Utf8Of(cp)|..]);
      RestRead(cfg, s, n, q, t[|Utf8Of(cp)|..], none + Utf8Of(cp));
      assert none + Utf8Of(cp) + t[|Utf8Of(cp)|..] == t;
    }
  }

  lemma {:induction false} RestBounds(cfg: Config, s: bytes, p: nat, q: nat, t: bytes)
    requires p <= |s| && p <= q && NameRest(cfg, s, p, q, t)
    ensures q <= |s|
    decreases q - p
  {
    hide NameChar, Utf8Of;
    if p < q {
      var n: nat, cp: nat :| p < n <= q && cp < 0x110000 && NameChar(s, p, n, cp) && cfg.identPart(cp) &&
        Utf8Of(cp) <= t && NameRest(cfg, s, n, q, t[|Utf8Of(cp)|..]);
      CharBounds(s, p, n, cp);
      RestBounds(cfg, s, n, q, t[|Utf8Of(cp)|..]);
    }
  }
}
