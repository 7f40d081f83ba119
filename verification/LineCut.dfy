/**
 A line inside a larger buffer against the same line alone. The parser may read past the logical end of the line;
 as long as a value ends inside the line, the bytes behind the line break change nothing.
 */
module LineCut {
  import opened Core
  import opened Grammar
  import opened Utf8
  import opened Strings
  import opened Json5Lexer
  import opened ParserSpec
  import StreamNumbers
  import StreamStrings

  /** The text is over at e, or a line break stands there. */
  predicate Breaks(t: bytes, e: nat) { e <= |t| && (e == |t| || t[e] == LF || t[e] == CR) }

  /** The line a alone and the line b in its buffer: same success with the same result, for whatever ends inside e. */
  ghost predicate Same<T>(a: Parsed<T>, b: Parsed<T>, e: nat) {
    && (a.Ok? ==> a == b)
    && (b.Ok? && b.next <= e ==> a == b)
  }

  function Cut(t: bytes, e: nat): (b: Input)
    requires e <= |t|
    ensures b.end == |b.buf| == e
  {
    Input(t[..e], e)
  }

  lemma {:induction false} WsCut(t: bytes, e: nat, p: nat)
    requires p <= e <= |t|
    ensures SkipWs(t[..e], p) == if SkipWs(t, p) < e then SkipWs(t, p) else e
    decreases e - p
  {
    if p < e && IsWs(t[p]) { WsCut(t, e, p + 1); }
  }

  // ---- scalars ----

  lemma WordCut(t: bytes, e: nat, q: nat, lit: bytes)
    requires Breaks(t, e) && q < e && 0 < |lit| && forall i :: 0 <= i < |lit| ==> lit[i] >= 0x20
    ensures LiteralAt(t[..e], q, e, lit) <==> LiteralAt(t, q, |t|, lit)
    ensures LiteralAt(t, q, |t|, lit) ==> q + |lit| <= e
  {
    if LiteralAt(t, q, |t|, lit) && e - q < |lit| { WordByte(t, q, lit, e - q); }
  }

  lemma WordByte(t: bytes, q: nat, lit: bytes, k: nat)
    requires LiteralAt(t, q, |t|, lit) && k < |lit|
    ensures At(t, q + k) == lit[k]
  {
  }

  lemma AfterCut(cfg: Config, t: bytes, e: nat, v: Json, q: nat)
    requires Breaks(t, e) && q <= e
    ensures AfterLiteral(cfg, t[..e], v, q) == AfterLiteral(cfg, t, v, q)
  {
  }

  lemma LiteralCut(cfg: Config, t: bytes, e: nat, q: nat)
    requires Breaks(t, e) && q < e
    ensures ParseLiteral(cfg, Cut(t, e), q) == ParseLiteral(cfg, Input(t, e), q)
    ensures ParseLiteral(cfg, Input(t, e), q).Ok? ==> ParseLiteral(cfg, Input(t, e), q).next <= e
  {
    hide LiteralAt;
    hide AfterLiteral;
    WordCut(t, e, q, TRUE);
    WordCut(t, e, q, NULL);
    WordCut(t, e, q, FALSE);
    if q + 4 <= e { AfterCut(cfg, t, e, Bool(true), q + 4); AfterCut(cfg, t, e, Null, q + 4); }
    if q + 5 <= e { AfterCut(cfg, t, e, Bool(false), q + 5); }
  }

  lemma {:induction false} DecodeForward(strict: bool, t: bytes, e: nat, p: nat, ck: Checker, acc: bytes)
    requires p <= e <= |t| && Decode(strict, t[..e], p, ck, acc).Ok?
    ensures Decode(strict, t, p, ck, acc) == Decode(strict, t[..e], p, ck, acc)
    decreases e - p
  {
    hide Escape, Feed, End;
    var u := t[..e];
    assert p < e && At(u, p) == At(t, p);
    if u[p] != QUOTE {
      if u[p] == BACKSLASH { EscapeInside(t, e, p); }
      DecodeForward(strict, t, e, Unit(u, p).next, FeedIf(strict, ck, u[p], p), acc + Unit(u, p).value);
    }
  }

  lemma EscapeInside(t: bytes, e: nat, p: nat)
    requires p < e <= |t|
    ensures Escape(t[..e], p).Ok? ==> Escape(t, p) == Escape(t[..e], p)
    ensures Breaks(t, e) && Escape(t, p).Ok? ==> Escape(t[..e], p) == Escape(t, p)
  {
    hide Escape;
    if Escape(t[..e], p).Ok? { StreamStrings.EscapeForward(t[..e], t, 0, p); }
    if Breaks(t, e) && Escape(t, p).Ok? {
      EscapeSealed(t, p, e);
      StreamStrings.EscapeBackward(t[..e], t, 0, p);
    }
  }

  lemma {:induction false} DecodeBackward(strict: bool, t: bytes, e: nat, p: nat, ck: Checker, acc: bytes)
    requires Breaks(t, e) && p <= e && Decode(strict, t, p, ck, acc).Ok?
    ensures Decode(strict, t[..e], p, ck, acc) == Decode(strict, t, p, ck, acc)
    decreases |t| - p
  {
    hide Escape, Feed, End;
    var u := t[..e];
    assert p < e && At(u, p) == At(t, p);
    if t[p] != QUOTE {
      EscapeInside(t, e, p);
      DecodeBackward(strict, t, e, Unit(t, p).next, FeedIf(strict, ck, t[p], p), acc + Unit(t, p).value);
    }
  }

  lemma StringCut(strict: bool, t: bytes, e: nat, q: nat)
    requires Breaks(t, e) && q < e && t[q] == QUOTE
    ensures Same(ParseString(strict, Cut(t, e), q), ParseString(strict, Input(t, e), q), e)
    ensures ParseString(strict, Input(t, e), q).Ok? ==> ParseString(strict, Input(t, e), q).next <= e
  {
    hide ParseString, Decode;
    FastPathAgrees(strict, Cut(t, e), q);
    FastPathAgrees(strict, Input(t, e), q);
    if Decode(strict, t[..e], q + 1, Fresh, []).Ok? { DecodeForward(strict, t, e, q + 1, Fresh, []); }
    if Decode(strict, t, q + 1, Fresh, []).Ok? {
      DecodeBackward(strict, t, e, q + 1, Fresh, []);
      DecodeSealed(strict, t, q + 1, e, Fresh, []);
    }
  }

  lemma NumberCut(lib: FloatLib, t: bytes, e: nat, q: nat)
    requires q < e <= |t|
    ensures ParseNumber(lib, t[..e], q, e) == ParseNumber(lib, t, q, e)
    ensures ParseNumber(lib, t, q, e).Ok? ==> ParseNumber(lib, t, q, e).next <= e
  {
    hide Scan, IsIntPart, DigitsIn;
    StreamNumbers.ScanMoved(t[..e], t, 0, q);
    var sc := Scan(t[..e], q, e);
    if sc.err.NumOk? {
      ScanShape(t[..e], q, e);
      ScanShape(t, q, e);
      StreamNumbers.ClassifyMoved(lib, t[..e], t, 0, q, sc);
    }
  }

  lemma TokenCut(cfg: Config, t: bytes, e: nat, q: nat)
    requires !cfg.json5 && Breaks(t, e) && q < e
    ensures Same(StringToken(cfg, Cut(t, e), q), StringToken(cfg, Input(t, e), q), e)
    ensures StringToken(cfg, Input(t, e), q).Ok? ==> StringToken(cfg, Input(t, e), q).next <= e
  {
    hide ParseString;
    if t[q] == QUOTE { StringCut(cfg.strictUtf8, t, e, q); }
  }

  /** A scalar that starts inside the line ends inside it, and is the scalar of the line alone. */
  lemma ScalarCut(cfg: Config, t: bytes, e: nat, q: nat, top: bool)
    requires !cfg.json5 && Breaks(t, e) && q < e
    ensures Same(ParseScalar(cfg, Cut(t, e), q, top), ParseScalar(cfg, Input(t, e), q, top), e)
    ensures ParseScalar(cfg, Input(t, e), q, top).Ok? ==> ParseScalar(cfg, Input(t, e), q, top).next <= e
  {
    hide StringToken, ParseLiteral, ParseNumber;
    TokenCut(cfg, t, e, q);
    LiteralCut(cfg, t, e, q);
    NumberCut(cfg.lib, t, e, q);
  }

  // ---- containers ----

  lemma SeparatorCut(cfg: Config, t: bytes, e: nat, p: nat, close: byte)
    requires !cfg.json5 && p <= e <= |t| && close != 0
    ensures Same(ParseSeparator(cfg, Cut(t, e), p, close), ParseSeparator(cfg, Input(t, e), p, close), e)
  {
    hide SkipWs;
    WsCut(t, e, p);
  }

  lemma KeyCut(cfg: Config, t: bytes, e: nat, p: nat, ms: seq<Member>)
    requires !cfg.json5 && Breaks(t, e) && p <= e
    ensures Same(ParseKeyColon(cfg, Cut(t, e), p, ms), ParseKeyColon(cfg, Input(t, e), p, ms), e)
  {
    hide SkipWs, StringToken;
    WsCut(t, e, p);
    var k := SkipWs(t, p);
    if k < e {
      TokenCut(cfg, t, e, k);
      var key := StringToken(cfg, Input(t, e), k);
      if key.Ok? { WsCut(t, e, key.next); }
    }
  }

  lemma OpensAlike(cfg: Config, t: bytes, e: nat, p: nat, q: nat, depth: nat, top: bool)
    requires !cfg.json5 && p <= e <= |t| && q < e && SkipWs(t, p) == q && SkipWs(t[..e], p) == q
    requires t[q] == LBRACKET ==>
      Same(ParseArray(cfg, Cut(t, e), q + 1, depth + 1), ParseArray(cfg, Input(t, e), q + 1, depth + 1), e)
    requires t[q] == LBRACE ==>
      Same(ParseObject(cfg, Cut(t, e), q + 1, depth + 1), ParseObject(cfg, Input(t, e), q + 1, depth + 1), e)
    requires t[q] == LBRACKET || t[q] == LBRACE
    ensures Same(ParseValue(cfg, Cut(t, e), p, depth, top), ParseValue(cfg, Input(t, e), p, depth, top), e)
  {
    hide SkipWs, ParseArray, ParseObject, ParseScalar, ParseValue;
    if t[q] == LBRACKET {
      ArrayOpens(cfg, Cut(t, e), p, q, depth, top);
      ArrayOpens(cfg, Input(t, e), p, q, depth, top);
    } else {
      ObjectOpens(cfg, Cut(t, e), p, q, depth, top);
      ObjectOpens(cfg, Input(t, e), p, q, depth, top);
    }
  }

  lemma ScalarAlike(cfg: Config, t: bytes, e: nat, p: nat, q: nat, depth: nat, top: bool)
    requires !cfg.json5 && Breaks(t, e) && p <= e && q < e && SkipWs(t, p) == q && SkipWs(t[..e], p) == q
    requires t[q] != LBRACKET && t[q] != LBRACE
    ensures Same(ParseValue(cfg, Cut(t, e), p, depth, top), ParseValue(cfg, Input(t, e), p, depth, top), e)
  {
    hide SkipWs, ParseScalar, ParseValue;
    ScalarAt(cfg, Cut(t, e), p, q, depth, top);
    ScalarAt(cfg, Input(t, e), p, q, depth, top);
    ScalarCut(cfg, t, e, q, top);
  }

  /** What a value starting at p is, alone and in the buffer. */
  lemma {:induction false} ValueCut(cfg: Config, t: bytes, e: nat, p: nat, depth: nat, top: bool)
    requires !cfg.json5 && Breaks(t, e) && p <= e
    ensures Same(ParseValue(cfg, Cut(t, e), p, depth, top), ParseValue(cfg, Input(t, e), p, depth, top), e)
    decreases e - p, 3
  {
    hide SkipWs, ParseValue, ParseArray, ParseObject, Same, Cut;
    WsCut(t, e, p);
    var q := SkipWs(t, p);
    if q >= e {
      NoneAlike(cfg, t, e, p, depth, top);
    } else if t[q] == LBRACKET {
      ArrayCut(cfg, t, e, q + 1, depth + 1);
      OpensAlike(cfg, t, e, p, q, depth, top);
    } else if t[q] == LBRACE {
      ObjectCut(cfg, t, e, q + 1, depth + 1);
      OpensAlike(cfg, t, e, p, q, depth, top);
    } else {
      ScalarAlike(cfg, t, e, p, q, depth, top);
    }
  }

  lemma NoneAlike(cfg: Config, t: bytes, e: nat, p: nat, depth: nat, top: bool)
    requires !cfg.json5 && p <= e <= |t| && SkipWs(t, p) >= e && SkipWs(t[..e], p) == e
    ensures Same(ParseValue(cfg, Cut(t, e), p, depth, top), ParseValue(cfg, Input(t, e), p, depth, top), e)
  {
    hide ParseValue, SkipWs;
    NothingLeft(cfg, t, e, p, depth, top);
    LaterValue(cfg, t, e, p, depth, top);
  }

  lemma NothingLeft(cfg: Config, t: bytes, e: nat, p: nat, depth: nat, top: bool)
    requires !cfg.json5 && p <= e <= |t| && SkipWs(t[..e], p) == e
    ensures ParseValue(cfg, Cut(t, e), p, depth, top).Fail?
  {
    hide ParseValue;
    ScalarAt(cfg, Cut(t, e), p, e, depth, top);
  }

  lemma LaterValue(cfg: Config, t: bytes, e: nat, p: nat, depth: nat, top: bool)
    requires !cfg.json5 && p <= e <= |t| && SkipWs(t, p) >= e
    ensures var r := ParseValue(cfg, Input(t, e), p, depth, top); r.Ok? ==> r.next > e
  {
    hide ParseArray, ParseObject, ParseScalar, SkipWs;
  }

  lemma {:induction false} ArrayCut(cfg: Config, t: bytes, e: nat, p: nat, depth: nat)
    requires !cfg.json5 && Breaks(t, e) && p <= e
    ensures Same(ParseArray(cfg, Cut(t, e), p, depth), ParseArray(cfg, Input(t, e), p, depth), e)
    decreases e - p, 5
  {
    hide SkipWs, ParseElements;
    WsCut(t, e, p);
    var q := SkipWs(t, p);
    if q < e {
      ElementsCut(cfg, t, e, q, depth, []);
    } else {
      NoElements(cfg, t, e, depth);
    }
  }

  lemma NoElements(cfg: Config, t: bytes, e: nat, depth: nat)
    requires !cfg.json5 && e <= |t|
    ensures ParseElements(cfg, Cut(t, e), e, depth, []).Fail?
  {
    hide ParseElements, ParseValue, ParseSeparator;
    ElementsStep(cfg, Cut(t, e), e, depth, []);
    WsCut(t, e, e);
    NothingLeft(cfg, t, e, e, depth, false);
  }

  lemma {:induction false} ElementsCut(cfg: Config, t: bytes, e: nat, p: nat, depth: nat, acc: seq<Json>)
    requires !cfg.json5 && Breaks(t, e) && p <= e
    ensures Same(ParseElements(cfg, Cut(t, e), p, depth, acc), ParseElements(cfg, Input(t, e), p, depth, acc), e)
    decreases e - p, 4
  {
    hide ParseElements, ParseValue, ParseSeparator;
    var a, b := Cut(t, e), Input(t, e);
    ElementsStep(cfg, a, p, depth, acc);
    ElementsStep(cfg, b, p, depth, acc);
    ValueCut(cfg, t, e, p, depth, false);
    var v := ParseValue(cfg, b, p, depth, false);
    if v.Ok? && v.next <= e {
      SeparatorCut(cfg, t, e, v.next, RBRACKET);
      var sep := ParseSeparator(cfg, b, v.next, RBRACKET);
      if sep.Ok? && sep.next <= e && sep.value.Another? { ElementsCut(cfg, t, e, sep.next, depth, acc + [v.value]); }
    }
  }

  lemma {:induction false} ObjectCut(cfg: Config, t: bytes, e: nat, p: nat, depth: nat)
    requires !cfg.json5 && Breaks(t, e) && p <= e
    ensures Same(ParseObject(cfg, Cut(t, e), p, depth), ParseObject(cfg, Input(t, e), p, depth), e)
    decreases e - p, 5
  {
    hide SkipWs, ParseMembers;
    WsCut(t, e, p);
    var q := SkipWs(t, p);
    if q < e {
      MembersCut(cfg, t, e, q, depth, []);
    } else {
      NoMembers(cfg, t, e, depth);
    }
  }

  lemma NoMembers(cfg: Config, t: bytes, e: nat, depth: nat)
    requires !cfg.json5 && e <= |t|
    ensures ParseMembers(cfg, Cut(t, e), e, depth, []).Fail?
  {
    hide ParseMembers, ParseValue, ParseSeparator;
    MembersStep(cfg, Cut(t, e), e, depth, []);
    WsCut(t, e, e);
  }

  lemma {:induction false} MembersCut(cfg: Config, t: bytes, e: nat, p: nat, depth: nat, ms: seq<Member>)
    requires !cfg.json5 && Breaks(t, e) && p <= e
    ensures Same(ParseMembers(cfg, Cut(t, e), p, depth, ms), ParseMembers(cfg, Input(t, e), p, depth, ms), e)
    decreases e - p, 4
  {
    hide ParseMembers, ParseValue, ParseSeparator, ParseKeyColon;
    var a, b := Cut(t, e), Input(t, e);
    MembersStep(cfg, a, p, depth, ms);
    MembersStep(cfg, b, p, depth, ms);
    KeyCut(cfg, t, e, p, ms);
    var k := ParseKeyColon(cfg, b, p, ms);
    if k.Ok? && k.next <= e {
      ValueCut(cfg, t, e, k.next, depth, false);
      var v := ParseValue(cfg, b, k.next, depth, false);
      if v.Ok? && v.next <= e {
        SeparatorCut(cfg, t, e, v.next, RBRACE);
        var sep := ParseSeparator(cfg, b, v.next, RBRACE);
        if sep.Ok? && sep.next <= e && sep.value.Another? {
          MembersCut(cfg, t, e, sep.next, depth, Upsert(ms, k.value, v.value));
        }
      }
    }
  }
}
