/** What an error of the RFC parser says about the text: at the recorded offset the text is as the code claims. */
module ErrorMeaning {
  import opened Core
  import opened Grammar
  import opened Utf8
  import opened Numbers
  import opened Strings
  import opened Json5Lexer
  import opened ParserSpec
  import opened Lexis
  import opened StringMeaning

  import Json5Texts

  // ---- what a code claims ----

  predicate Here(s: bytes, o: nat, c: char) { o < |s| && s[o] == c as int }

  predicate DigitHere(s: bytes, o: nat) { o < |s| && Digit(s[o]) }

  predicate StartsValue(c: byte) {
    || c == '"' as int || c == 't' as int || c == 'f' as int || c == 'n' as int || c == '-' as int || Digit(c)
    || c == '[' as int || c == '{' as int
  }

  predicate IsLiteral(s: bytes, p: nat, q: nat) {
    Word(s, p, q, "true") || Word(s, p, q, "false") || Word(s, p, q, "null")
  }

  /** `\u` and k hex digits stand in front of o. */
  predicate HexStarts(s: bytes, o: nat, k: nat) {
    && k + 2 <= o <= |s| && s[o - k - 2] == '\\' as int && s[o - k - 1] == 'u' as int
    && forall i :: o - k <= i < o ==> IsHexDigit(s[i])
  }

  ghost predicate Says(s: bytes, code: Code, o: nat) {
    o <= |s| &&
    match code
    case UnexpectedEndOfInput => o == |s|
    case UnexpectedValueCharacter => !(o < |s| && StartsValue(s[o]))
    case UnexpectedCharacter => !(o < |s| && StartsValue(s[o]))
    case ExtraCharactersAfterValue => o < |s| && !Blank(s[o])
    case MaxDepthExceeded => Here(s, o, '[') || Here(s, o, '{')
    case ExpectedCommaOrBracket => !Here(s, o, ',') && !Here(s, o, ']')
    case ExpectedCommaOrBrace => !Here(s, o, ',') && !Here(s, o, '}')
    case UnexpectedEndOfObject => o == |s|
    case ExpectedStringKey => !Here(s, o, '"')
    case ExpectedColon => !Here(s, o, ':')
    case InvalidLiteral => (Here(s, o, 't') || Here(s, o, 'f') || Here(s, o, 'n')) && forall q :: !IsLiteral(s, o, q)
    case InvalidLiteralTrailing =>
      && (exists p: nat :: IsLiteral(s, p, o))
      && o < |s| && s[o] != 0 && !Blank(s[o])
      && !Here(s, o, ',') && !Here(s, o, ':') && !Here(s, o, ']') && !Here(s, o, '}')
    case NumberNoIntDigits => !DigitHere(s, o) && o > 0 && s[o - 1] == '-' as int
    case NumberLeadingZero => exists i: nat :: i + 1 < o && s[i] == '0' as int && Digits(s, i, o)
    case NumberNoFracDigits => !DigitHere(s, o) && o > 0 && s[o - 1] == '.' as int
    case NumberNoExpDigits =>
      !DigitHere(s, o) && ((o > 0 && ExpMark(s[o - 1])) || (o > 1 && Sign(s[o - 1]) && ExpMark(s[o - 2])))
    case NumberOutOfRange => Here(s, o, '-') || DigitHere(s, o)
    case NumberInvalidFormat => o > 0 && Digit(s[o - 1])
    case UnterminatedString => o == |s|
    case UnescapedControl => o == |s| || s[o] < 0x20
    case InvalidEscapeChar =>
      o > 0 && s[o - 1] == '\\' as int && !(o < |s| && (IsSimple(s[o]) || s[o] == 'u' as int))
    case InvalidHexDigit => !(o < |s| && IsHexDigit(s[o])) && exists k: nat :: k < 4 && HexStarts(s, o, k)
    case ExpectedLowSurrogate =>
      && o >= 6 && (exists hi :: HexEscape(s, o - 6, hi) && HighSurrogate(hi))
      && !(Here(s, o, '\\') && Here(s, o + 1, 'u'))
    case InvalidSurrogatePair =>
      && o >= 12 && (exists hi :: HexEscape(s, o - 12, hi) && HighSurrogate(hi))
      && exists lo :: HexEscape(s, o - 6, lo) && !LowSurrogate(lo)
    case LoneLowSurrogate => o >= 6 && exists lo :: HexEscape(s, o - 6, lo) && LowSurrogate(lo)
    case Utf8InvalidLead => o < |s| && (0x80 <= s[o] < 0xC0 || s[o] >= 0xF5)
    case Utf8InvalidContinuation => o < |s| && !(0x80 <= s[o] < 0xC0)
    case Utf8Overlong =>
      && o < |s|
      && (s[o] == 0xC0 || s[o] == 0xC1 || Followed(s, o, 0xE0, 0x80, 0xA0) || Followed(s, o, 0xF0, 0x80, 0x90))
    case Utf8Surrogate => Followed(s, o, 0xED, 0xA0, 0xC0)
    case Utf8ExceedsMax => Followed(s, o, 0xF4, 0x90, 0xC0)
    case Utf8Truncated => o < |s| && 0xC2 <= s[o] < 0xF5
    case _ => false
  }

  /** The lead byte a at o, with a second byte from lo on and below hi. */
  predicate Followed(s: bytes, o: nat, a: byte, lo: byte, hi: byte) {
    o + 1 < |s| && s[o] == a && lo <= s[o + 1] < hi
  }

  /** The error is a repeated key in strict mode, or says the truth. */
  ghost predicate Honest<T>(cfg: Config, s: bytes, r: Parsed<T>) {
    r.Fail? ==>
      || (r.error == ContextFree(DuplicateKey) && cfg.strictKeys)
      || (r.error.Positioned? && Says(s, r.error.code, r.error.offset))
  }

  // ---- strings ----

  lemma Hex4Says(s: bytes, p: nat)
    requires p + 1 < |s| && s[p] == BACKSLASH && s[p + 1] == LOWER_U
    ensures Hex4(s, p + 2).Fail? ==>
      Hex4(s, p + 2).error.Positioned? && Says(s, Hex4(s, p + 2).error.code, Hex4(s, p + 2).error.offset)
  {
    var r := Hex4(s, p + 2);
    if r.Fail? {
      var o := r.error.offset;
      hide Hex4, HexValue, IsHexDigit;
      forall c: byte ensures IsHexDigit(c) <==> HexValue(c) >= 0 { HexMeans(c, HexValue(c)); }
      PaddingIsNoHex();
      assert forall i :: p + 2 <= i < o ==> HexValue(At(s, i)) >= 0;
      assert At(s, |s|) == 0;
      assert HexStarts(s, o, o - p - 2);
    }
  }

  lemma PaddingIsNoHex()
    ensures HexValue(0) < 0
  {
  }

  lemma LowSays(s: bytes, p: nat, v: int)
    requires HexEscape(s, p, v) && LowSurrogate(v)
    ensures Says(s, LoneLowSurrogate, p + 6)
  {
    hide HexDigit;
    var o := p + 6;
    assert HexEscape(s, o - 6, v);
  }

  lemma HighSays(s: bytes, p: nat, v: int)
    requires HexEscape(s, p, v) && HighSurrogate(v)
    ensures !(At(s, p + 6) == BACKSLASH && At(s, p + 7) == LOWER_U) ==> Says(s, ExpectedLowSurrogate, p + 6)
  {
    hide HexDigit;
    var o := p + 6;
    assert HexEscape(s, o - 6, v);
  }

  lemma PairSays(s: bytes, p: nat, hi: int, lo: int)
    requires HexEscape(s, p, hi) && HighSurrogate(hi) && HexEscape(s, p + 6, lo) && !LowSurrogate(lo)
    ensures Says(s, InvalidSurrogatePair, p + 12)
  {
    hide HexDigit;
    var o := p + 12;
    assert HexEscape(s, o - 12, hi) && HexEscape(s, o - 6, lo);
  }

  lemma EscapeSays(s: bytes, p: nat)
    requires p < |s| && s[p] == BACKSLASH && Escape(s, p).Fail?
    ensures Escape(s, p).error.Positioned? && Says(s, Escape(s, p).error.code, Escape(s, p).error.offset)
  {
    hide Hex4, EncodeUtf8, ShortEscape, HexEscape, Says;
    var c := At(s, p + 1);
    if p + 1 < |s| { ShortIsSimple(c); }
    NoShort0();
    if ShortEscape(c) == 0 && c == LOWER_U {
      Hex4Says(s, p);
      var h := Hex4(s, p + 2);
      if h.Ok? {
        Hex4Means(s, p, h.value);
        if IsHighSurrogate(h.value) {
          HighSays(s, p, h.value);
          if At(s, h.next) == BACKSLASH && At(s, h.next + 1) == LOWER_U {
            Hex4Says(s, h.next);
            var l := Hex4(s, h.next + 2);
            if l.Ok? {
              Hex4Means(s, h.next, l.value);
              if !IsLowSurrogate(l.value) { PairSays(s, p, h.value, l.value); }
            }
          }
        } else if IsLowSurrogate(h.value) {
          LowSays(s, p, h.value);
        }
      }
    } else if ShortEscape(c) == 0 {
      LetterSays(s, p);
    }
  }

  lemma LetterSays(s: bytes, p: nat)
    requires p < |s| && s[p] == BACKSLASH && At(s, p + 1) != LOWER_U && ShortEscape(At(s, p + 1)) == 0
    ensures Says(s, InvalidEscapeChar, p + 1)
  {
    if p + 1 < |s| { ShortIsSimple(s[p + 1]); }
  }

  lemma NoShort0()
    ensures ShortEscape(0) == 0
  {
  }

  // ---- the UTF-8 check ----

  /** What a lead byte makes the checker expect. */
  predicate Expects(b: byte, lo: nat, hi: nat, code: Option<Code>) {
    if b == 0xE0 then lo == 0xA0 && hi == 0xBF && code == Some(Utf8Overlong)
    else if b == 0xED then lo == 0x80 && hi == 0x9F && code == Some(Utf8Surrogate)
    else if b == 0xF0 then lo == 0x90 && hi == 0xBF && code == Some(Utf8Overlong)
    else if b == 0xF4 then lo == 0x80 && hi == 0x8F && code == Some(Utf8ExceedsMax)
    else 0xC2 <= b < 0xF5 && lo == 0x80 && hi == 0xBF
  }

  /** A character the checker is inside of starts at its lead. */
  predicate Tracks(s: bytes, ck: Checker) {
    ck.need > 0 ==> ck.lead < |s| && Expects(s[ck.lead], ck.c1lo, ck.c1hi, ck.leadCode)
  }

  ghost predicate CheckerSays(s: bytes, ck: Checker) {
    if ck.code.None? then Tracks(s, ck) else Says(s, ck.code.value, ck.err)
  }

  lemma FeedSays(s: bytes, ck: Checker, p: nat)
    requires p < |s| && ck.code.None? && Tracks(s, ck)
    ensures CheckerSays(s, Feed(ck, s[p], p))
  {
    if ck.need == 0 { LeadSays(s, ck, p); }
  }

  lemma LeadSays(s: bytes, ck: Checker, p: nat)
    requires p < |s| && ck.code.None? && ck.need == 0
    ensures CheckerSays(s, FeedLead(ck, s[p], p))
  {
  }

  lemma EndSays(s: bytes, ck: Checker)
    requires ck.code.None? && Tracks(s, ck)
    ensures CheckerSays(s, End(ck))
  {
  }

  lemma {:induction false} FeedRangeSays(s: bytes, ck: Checker, p: nat, q: nat)
    requires p <= q <= |s| && ck.code.None? && Tracks(s, ck)
    ensures CheckerSays(s, FeedRange(ck, s, p, q))
    decreases q - p
  {
    hide Feed, Tracks, Says;
    if p < q {
      FeedSays(s, ck, p);
      var c := Feed(ck, s[p], p);
      if c.code.None? { FeedRangeSays(s, c, p + 1, q); } else { FeedFailed(c, s, p + 1, q); }
    }
  }

  // ---- string tokens ----

  lemma {:induction false} DecodeSays(strict: bool, s: bytes, p: nat, ck: Checker, acc: bytes)
    requires p <= |s| && ck.code.None? && Tracks(s, ck) && Decode(strict, s, p, ck, acc).Fail?
    ensures var e := Decode(strict, s, p, ck, acc).error; e.Positioned? && Says(s, e.code, e.offset)
    decreases |s| - p
  {
    hide Decode, Escape, Says, Feed, End, Tracks;
    DecodeIs(strict, s, p, ck, acc);
    var c := At(s, p);
    if c == QUOTE {
      EndSays(s, ck);
    } else {
      PaddingFeeds(ck, p);
      if p < |s| { FeedSays(s, ck, p); }
      var ck1 := FeedIf(strict, ck, c, p);
      var u := Unit(s, p);
      if strict && p == |s| {
        PaddingSays(s, ck, p);
      } else if ck1.code.None? {
        if u.Ok? {
          DecodeSays(strict, s, u.next, ck1, acc + u.value);
        } else if c == BACKSLASH {
          EscapeSays(s, p);
        } else {
          ControlSays(s, p);
        }
      }
    }
  }

  /** The padding behind the text is skipped by the checker. */
  lemma PaddingFeeds(ck: Checker, p: nat)
    requires ck.code.None?
    ensures Feed(ck, 0, p) == ck
  {
  }

  lemma PaddingSays(s: bytes, ck: Checker, p: nat)
    requires p == |s| && ck.code.None?
    ensures Feed(ck, At(s, p), p) == ck && Unit(s, p) == Fail(Positioned(UnescapedControl, p))
    ensures Says(s, UnescapedControl, p)
  {
  }

  lemma ControlSays(s: bytes, p: nat)
    requires p <= |s| && At(s, p) < 0x20
    ensures Says(s, UnescapedControl, p)
  {
  }

  lemma StringSays(cfg: Config, s: bytes, p: nat)
    requires p < |s| && s[p] == QUOTE
    ensures Honest(cfg, s, ParseString(cfg.strictUtf8, Whole(s), p))
  {
    hide Decode, Feed, End, FeedRange;
    var strict := cfg.strictUtf8;
    var q := StopAt(s, p + 1);
    FreshTracks(s);
    FeedRangeSays(s, Fresh, p + 1, q);
    var ck := FeedRangeIf(strict, Fresh, s, p + 1, q);
    if ck.code.None? {
      EndSays(s, ck);
      if Decode(strict, s, q, ck, s[p + 1..q]).Fail? { DecodeSays(strict, s, q, ck, s[p + 1..q]); }
    } else {
      EndFailed(ck);
    }
  }

  lemma EndFailed(ck: Checker)
    requires ck.code.Some?
    ensures End(ck) == ck
  {
  }

  lemma FreshTracks(s: bytes)
    ensures Tracks(s, Fresh)
  {
  }

  // ---- numbers and literals ----

  lemma ExpSays(s: bytes, p: nat, sc: NumScan)
    requires p <= |s|
    ensures var r := ScanExp(s, p, |s|, sc);
      !r.err.NumOk? ==> r.err.NoExpDigits? && Says(s, NumberNoExpDigits, r.next)
  {
  }

  lemma FracSays(s: bytes, p: nat, sc: NumScan)
    requires p <= |s|
    ensures var r := ScanFrac(s, p, |s|, sc);
      !r.err.NumOk? ==> (r.err.NoExpDigits? || r.err.NoFracDigits?) && Says(s, NumErrorCode(r.err), r.next)
  {
    hide ScanExp;
    if p < |s| && s[p] == DOT {
      ExpSays(s, DigitRun(s, p + 1, |s|), sc.(isFloat := true));
    } else {
      ExpSays(s, p, sc);
    }
  }

  lemma ScanSays(s: bytes, p: nat)
    requires p < |s| && StartsNumber(s[p])
    ensures var r := Scan(s, p, |s|); !r.err.NumOk? ==> Says(s, NumErrorCode(r.err), r.next)
  {
    hide ScanFrac;
    var i := if s[p] == MINUS then p + 1 else p;
    if DigitAt(s, i, |s|) {
      var j := DigitRun(s, i, |s|);
      DigitRunDigits(s, i, |s|);
      FracSays(s, j, NumScan(NumOk, j, i, j - i, s[p] == MINUS, false));
    }
  }

  lemma NumberSays(cfg: Config, s: bytes, p: nat)
    requires p < |s| && StartsNumber(s[p])
    ensures Honest(cfg, s, ParseNumber(cfg.lib, s, p, |s|))
  {
    hide Scan, TakesInteger;
    ScanSays(s, p);
    var sc := Scan(s, p, |s|);
    if sc.err.NumOk? {
      ScanShape(s, p, |s|);
      ScanSound(s, p, |s|);
      TokenEndsInDigit(s, p, sc.next);
    }
  }

  lemma TokenEndsInDigit(s: bytes, p: nat, q: nat)
    requires IsNumberToken(s, p, q)
    ensures 0 < q <= |s| && Digit(s[q - 1])
  {
    var i: nat, j: nat, k: nat :| IsNumberSplit(s, p, i, j, k, q);
  }

  lemma LiteralSays(cfg: Config, s: bytes, p: nat)
    requires !cfg.json5 && p < |s| && StartsLiteral(s[p])
    ensures Honest(cfg, s, ParseLiteral(cfg, Whole(s), p))
  {
    hide LiteralAt, Word;
    forall q ensures IsLiteral(s, p, q) <==>
      (LiteralAt(s, p, |s|, TRUE) && q == p + 4) || (LiteralAt(s, p, |s|, FALSE) && q == p + 5) ||
      (LiteralAt(s, p, |s|, NULL) && q == p + 4)
    {
      Json5Texts.LiteralsAre(s, p, q);
    }
    if ParseLiteral(cfg, Whole(s), p).Fail? && ParseLiteral(cfg, Whole(s), p).error.code == InvalidLiteralTrailing {
      assert IsLiteral(s, p, ParseLiteral(cfg, Whole(s), p).error.offset);
      LiteralFits(s, p);
    }
  }

  lemma LiteralFits(s: bytes, p: nat)
    ensures LiteralAt(s, p, |s|, TRUE) ==> p + 4 <= |s|
    ensures LiteralAt(s, p, |s|, FALSE) ==> p + 5 <= |s|
    ensures LiteralAt(s, p, |s|, NULL) ==> p + 4 <= |s|
  {
  }

  // ---- values ----

  lemma SkipSays(cfg: Config, s: bytes, p: nat)
    requires !cfg.json5 && p <= |s|
    ensures var q := SkipWs(s, p);
      Skip(cfg, Whole(s), p) == Ok((), q) && p <= q <= |s| && (q < |s| ==> !Blank(s[q]))
  {
  }

  lemma ScalarSays(cfg: Config, s: bytes, p: nat, top: bool)
    requires !cfg.json5 && p <= |s| && At(s, p) != LBRACE && At(s, p) != LBRACKET
    ensures Honest(cfg, s, ParseScalar(cfg, Whole(s), p, top))
  {
    hide ParseString, ParseNumber, ParseLiteral, ParseString5, ParseNumber5;
    if p < |s| {
      if s[p] == QUOTE {
        StringSays(cfg, s, p);
      } else if StartsLiteral(s[p]) {
        LiteralSays(cfg, s, p);
      } else if StartsNumber(s[p]) {
        NumberSays(cfg, s, p);
      }
    }
  }

  lemma SeparatorSays(cfg: Config, s: bytes, p: nat, close: byte)
    requires !cfg.json5 && p <= |s| && (close == RBRACE || close == RBRACKET)
    ensures Honest(cfg, s, ParseSeparator(cfg, Whole(s), p, close))
  {
    hide SkipWs;
    SkipSays(cfg, s, p);
  }

  lemma KeyColonSays(cfg: Config, s: bytes, p: nat, ms: seq<Member>)
    requires !cfg.json5 && p <= |s|
    ensures Honest(cfg, s, ParseKeyColon(cfg, Whole(s), p, ms))
  {
    hide SkipWs, ParseString, Keys;
    SkipSays(cfg, s, p);
    var k := SkipWs(s, p);
    if k < |s| && s[k] == QUOTE {
      StringSays(cfg, s, k);
      var r := ParseString(cfg.strictUtf8, Whole(s), k);
      if r.Ok? { SkipSays(cfg, s, r.next); }
    }
  }

  lemma {:induction false} ValueSays(cfg: Config, s: bytes, p: nat, depth: nat, top: bool)
    requires !cfg.json5 && p <= |s|
    ensures Honest(cfg, s, ParseValue(cfg, Whole(s), p, depth, top))
    decreases |s| - p, 3
  {
    hide ParseValue, ParseArray, ParseObject, ParseScalar, Skip, SkipWs;
    SkipSays(cfg, s, p);
    var q := SkipWs(s, p);
    var c := At(s, q);
    if c == LBRACKET {
      ArrayOpens(cfg, Whole(s), p, q, depth, top);
      ArraySays(cfg, s, q + 1, depth + 1);
    } else if c == LBRACE {
      ObjectOpens(cfg, Whole(s), p, q, depth, top);
      ObjectSays(cfg, s, q + 1, depth + 1);
    } else {
      ScalarAt(cfg, Whole(s), p, q, depth, top);
      ScalarSays(cfg, s, q, top);
    }
  }

  lemma {:induction false} ArraySays(cfg: Config, s: bytes, p: nat, depth: nat)
    requires !cfg.json5 && p <= |s|
    ensures Honest(cfg, s, ParseArray(cfg, Whole(s), p, depth))
    decreases |s| - p, 5
  {
    hide ParseElements, Says, SkipWs;
    SkipSays(cfg, s, p);
    ElementsSay(cfg, s, SkipWs(s, p), depth, []);
  }

  lemma {:induction false} ElementsSay(cfg: Config, s: bytes, p: nat, depth: nat, acc: seq<Json>)
    requires !cfg.json5 && p <= |s|
    ensures Honest(cfg, s, ParseElements(cfg, Whole(s), p, depth, acc))
    decreases |s| - p, 4
  {
    hide ParseElements, ParseValue, ParseSeparator, Says;
    ElementsStep(cfg, Whole(s), p, depth, acc);
    ValueSays(cfg, s, p, depth, false);
    var v := ParseValue(cfg, Whole(s), p, depth, false);
    if v.Ok? {
      SeparatorSays(cfg, s, v.next, RBRACKET);
      var sep := ParseSeparator(cfg, Whole(s), v.next, RBRACKET);
      if sep.Ok? && sep.value.Another? { ElementsSay(cfg, s, sep.next, depth, acc + [v.value]); }
    }
  }

  lemma {:induction false} ObjectSays(cfg: Config, s: bytes, p: nat, depth: nat)
    requires !cfg.json5 && p <= |s|
    ensures Honest(cfg, s, ParseObject(cfg, Whole(s), p, depth))
    decreases |s| - p, 5
  {
    hide ParseMembers, Says, SkipWs;
    SkipSays(cfg, s, p);
    MembersSay(cfg, s, SkipWs(s, p), depth, []);
  }

  lemma {:induction false} MembersSay(cfg: Config, s: bytes, p: nat, depth: nat, ms: seq<Member>)
    requires !cfg.json5 && p <= |s|
    ensures Honest(cfg, s, ParseMembers(cfg, Whole(s), p, depth, ms))
    decreases |s| - p, 4
  {
    hide ParseMembers, ParseValue, ParseKeyColon, ParseSeparator, Says;
    MembersStep(cfg, Whole(s), p, depth, ms);
    KeyColonSays(cfg, s, p, ms);
    var k := ParseKeyColon(cfg, Whole(s), p, ms);
    if k.Ok? {
      ValueSays(cfg, s, k.next, depth, false);
      var v := ParseValue(cfg, Whole(s), k.next, depth, false);
      if v.Ok? {
        SeparatorSays(cfg, s, v.next, RBRACE);
        var sep := ParseSeparator(cfg, Whole(s), v.next, RBRACE);
        if sep.Ok? && sep.value.Another? { MembersSay(cfg, s, sep.next, depth, Upsert(ms, k.value, v.value)); }
      }
    }
  }

  /**
   Every text RFC mode refuses, in any settings, is refused with the truth: where the error points, the text is as its
   code says. The one error without a place is a repeated key, when keys are checked.
   */
  lemma ErrorsAreHonest(cfg: Config, s: bytes)
    requires !cfg.json5
    ensures Honest(cfg, s, ParseDocument(cfg, Whole(s)))
  {
    hide ParseValue, Skip, SkipWs;
    BomFits(s);
    var p := SkipBom(cfg, Whole(s));
    ValueSays(cfg, s, p, 0, true);
    var v := ParseValue(cfg, Whole(s), p, 0, true);
    if v.Ok? { SkipSays(cfg, s, v.next); }
  }

  lemma BomFits(s: bytes)
    ensures LiteralAt(s, 0, |s|, BOM) ==> 3 <= |s|
  {
  }
}
