/**
 A JSON5 line inside a larger buffer against the same line alone. The line's end bounds every JSON5 scan, so the two
 parsers agree, errors included, except on the code for a line that holds comments only.
 */
module LineCut5 {
  import opened Core
  import opened Grammar
  import opened Utf8
  import opened Strings
  import opened Json5Lexer
  import opened Json5Scan
  import opened ParserSpec
  import opened LineCut

  lemma CutSame(t: bytes, e: nat, p: nat)
    requires e <= |t|
    ensures SameTo(t[..e], t, p, e)
  {
  }

  // ---- tokens ----

  lemma Unicode5Same(s: bytes, t: bytes, p: nat, e: nat)
    requires SameTo(s, t, p, e) && p < e
    ensures UnicodeEscape5(s, p, e) == UnicodeEscape5(t, p, e)
  {
    hide Hex4Bounded, EncodeUtf8, JoinPair;
    HexBoundedSame(s, t, p, e, p + 1);
    HexBoundedSame(s, t, p, e, p + 7);
    if p + 6 < e { assert s[p + 5] == t[p + 5] && s[p + 6] == t[p + 6]; }
  }

  lemma Escape5Same(s: bytes, t: bytes, p: nat, e: nat)
    requires SameTo(s, t, p, e) && p < e
    ensures Escape5(s, p, e) == Escape5(t, p, e)
  {
    hide UnicodeEscape5, HexValue, ShortEscape5;
    if p + 1 < e {
      assert s[p + 1] == t[p + 1];
      Unicode5Same(s, t, p + 1, e);
    }
    if p + 2 < e { assert s[p + 2] == t[p + 2]; }
    if p + 3 < e { assert s[p + 3] == t[p + 3]; }
  }

  lemma {:induction false} Decode5Same(strict: bool, s: bytes, t: bytes, p: nat, e: nat, quote: byte, ck: Checker,
      acc: bytes)
    requires SameTo(s, t, p, e) && p <= e
    ensures Decode5(strict, s, p, e, quote, ck, acc) == Decode5(strict, t, p, e, quote, ck, acc)
    decreases e - p
  {
    hide Decode5, Escape5, Feed, End;
    Decode5Is(strict, s, p, e, quote, ck, acc);
    Decode5Is(strict, t, p, e, quote, ck, acc);
    if p < e {
      assert s[p] == t[p];
      Escape5Same(s, t, p, e);
      var u := Unit5(s, p, e);
      if u.Ok? { Decode5Same(strict, s, t, u.next, e, quote, FeedIf(strict, ck, s[p], p), acc + u.value); }
    }
  }

  lemma {:induction false} IdentSame(cfg: Config, s: bytes, t: bytes, p: nat, e: nat, first: bool, acc: bytes)
    requires SameTo(s, t, p, e) && p <= e
    ensures IdentRun(cfg, s, p, e, first, acc) == IdentRun(cfg, t, p, e, first, acc)
    decreases e - p
  {
    hide IdentUnit, EncodeUtf8;
    if p < e {
      IdentUnitSame(s, t, p, e);
      var u := IdentUnit(s, p, e);
      if u.IdentAt? {
        SliceSame(s, t, p, e, p, u.next);
        IdentSame(cfg, s, t, u.next, e, false, acc + if u.escaped then EncodeUtf8(u.cp).value else s[p..u.next]);
      }
    }
  }

  /** The line alone and the line in its buffer: the same outcome, inside the line. */
  ghost predicate Alike<T>(a: Parsed<T>, b: Parsed<T>, e: nat) { a == b && (b.Ok? ==> b.next <= e) }

  lemma SkipAlike(cfg: Config, t: bytes, e: nat, p: nat)
    requires cfg.json5 && p <= e <= |t|
    ensures Alike(Skip(cfg, Cut(t, e), p), Skip(cfg, Input(t, e), p), e)
  {
    hide Trivia;
    CutSame(t, e, p);
    TriviaSame(t[..e], t, p, e, p);
  }

  lemma StringAlike(strict: bool, t: bytes, e: nat, p: nat, quote: byte)
    requires p < e <= |t|
    ensures Alike(ParseString5(strict, Cut(t, e), p, quote), ParseString5(strict, Input(t, e), p, quote), e)
  {
    hide Decode5;
    CutSame(t, e, p + 1);
    Decode5Same(strict, t[..e], t, p + 1, e, quote, Fresh, []);
  }

  lemma NumberAlike(cfg: Config, t: bytes, e: nat, p: nat)
    requires cfg.json5 && p <= e <= |t|
    ensures Alike(NumberToken(cfg, Cut(t, e), p), NumberToken(cfg, Input(t, e), p), e)
  {
    hide ParseNumber5;
    CutSame(t, e, p);
    Number5Same(cfg.lib, t[..e], t, p, e);
  }

  /** At the end of the line stands a line break, or nothing. */
  lemma AtEnd(t: bytes, e: nat)
    requires Breaks(t, e)
    ensures At(t[..e], e) == 0 && (At(t, e) == 0 || At(t, e) == LF || At(t, e) == CR) && (At(t, e) == 0 <==> e == |t|)
  {
  }

  lemma At5(t: bytes, e: nat, q: nat)
    requires q < e <= |t|
    ensures At(t[..e], q) == At(t, q) == t[q]
  {
  }

  /**
   A scalar, wherever it starts; only for want of a top-level value the codes differ, and only before a line break.
   */
  lemma ScalarAlike5(cfg: Config, t: bytes, e: nat, q: nat, top: bool)
    requires cfg.json5 && Breaks(t, e) && q <= e
    ensures var a := ParseScalar(cfg, Cut(t, e), q, top); var b := ParseScalar(cfg, Input(t, e), q, top);
      if top && q == e < |t| then
        a == Fail(Positioned(UnexpectedEndOfInput, e)) && b == Fail(Positioned(UnexpectedValueCharacter, e))
      else Alike(a, b, e)
  {
    hide ParseString5, NumberToken, ParseLiteral;
    if q == e {
      AtEnd(t, e);
    } else {
      At5(t, e, q);
      StringAlike(cfg.strictUtf8, t, e, q, QUOTE);
      StringAlike(cfg.strictUtf8, t, e, q, APOSTROPHE);
      NumberAlike(cfg, t, e, q);
      LiteralCut(cfg, t, e, q);
    }
  }

  lemma KeyAlike(cfg: Config, t: bytes, e: nat, p: nat)
    requires cfg.json5 && Breaks(t, e) && p <= e <= |t|
    ensures Alike(ParseKey(cfg, Cut(t, e), p), ParseKey(cfg, Input(t, e), p), e)
  {
    hide ParseString5, IdentRun;
    if p == e {
      AtEnd(t, e);
    } else {
      At5(t, e, p);
      StringAlike(cfg.strictUtf8, t, e, p, QUOTE);
      StringAlike(cfg.strictUtf8, t, e, p, APOSTROPHE);
      CutSame(t, e, p);
      IdentSame(cfg, t[..e], t, p, e, true, []);
    }
  }

  lemma ByteAlike(t: bytes, e: nat, q: nat, c: byte)
    requires Breaks(t, e) && q <= e && c >= 0x20
    ensures At(t[..e], q) == c <==> At(t, q) == c
    ensures At(t, q) == c ==> q < e
  {
  }

  lemma KeyColonAlike(cfg: Config, t: bytes, e: nat, p: nat, ms: seq<Member>)
    requires cfg.json5 && Breaks(t, e) && p <= e <= |t|
    ensures Alike(ParseKeyColon(cfg, Cut(t, e), p, ms), ParseKeyColon(cfg, Input(t, e), p, ms), e)
  {
    hide Skip, ParseKey, Keys, Breaks;
    SkipAlike(cfg, t, e, p);
    var k := Skip(cfg, Input(t, e), p);
    if k.Ok? {
      KeyAlike(cfg, t, e, k.next);
      var key := ParseKey(cfg, Input(t, e), k.next);
      if key.Ok? {
        SkipAlike(cfg, t, e, key.next);
        var c := Skip(cfg, Input(t, e), key.next);
        if c.Ok? { ByteAlike(t, e, c.next, COLON); }
      }
    }
  }

  lemma SeparatorAlike(cfg: Config, t: bytes, e: nat, p: nat, close: byte)
    requires cfg.json5 && Breaks(t, e) && p <= e <= |t| && close >= 0x20
    ensures Alike(ParseSeparator(cfg, Cut(t, e), p, close), ParseSeparator(cfg, Input(t, e), p, close), e)
  {
    hide Skip, Breaks;
    SkipAlike(cfg, t, e, p);
    var r := Skip(cfg, Input(t, e), p);
    if r.Ok? {
      ByteAlike(t, e, r.next, close);
      ByteAlike(t, e, r.next, COMMA);
      if At(t, r.next) == COMMA {
        SkipAlike(cfg, t, e, r.next + 1);
        var u := Skip(cfg, Input(t, e), r.next + 1);
        if u.Ok? { ByteAlike(t, e, u.next, close); }
      }
    }
  }

  // ---- values ----

  /** Nothing but trivia stands between p and the line break. */
  predicate OnlyTrivia(cfg: Config, t: bytes, e: nat, p: nat)
    requires p <= e <= |t|
  {
    e < |t| && Skip(cfg, Input(t, e), p).Ok? && Skip(cfg, Input(t, e), p).next == e
  }

  lemma {:induction false} ValueAlike(cfg: Config, t: bytes, e: nat, p: nat, depth: nat, top: bool)
    requires cfg.json5 && Breaks(t, e) && p <= e <= |t| && (top ==> !OnlyTrivia(cfg, t, e, p))
    ensures Alike(ParseValue(cfg, Cut(t, e), p, depth, top), ParseValue(cfg, Input(t, e), p, depth, top), e)
    decreases e - p, 3
  {
    hide ParseArray, ParseObject, ParseScalar, Skip, Breaks;
    SkipAlike(cfg, t, e, p);
    var r := Skip(cfg, Input(t, e), p);
    if r.Ok? {
      var q := r.next;
      ByteAlike(t, e, q, LBRACE);
      ByteAlike(t, e, q, LBRACKET);
      if At(t, q) == LBRACE {
        ObjectAlike(cfg, t, e, q + 1, depth + 1);
      } else if At(t, q) == LBRACKET {
        ArrayAlike(cfg, t, e, q + 1, depth + 1);
      } else {
        ScalarAlike5(cfg, t, e, q, top);
      }
    }
  }

  lemma {:induction false} ArrayAlike(cfg: Config, t: bytes, e: nat, p: nat, depth: nat)
    requires cfg.json5 && Breaks(t, e) && p <= e <= |t|
    ensures Alike(ParseArray(cfg, Cut(t, e), p, depth), ParseArray(cfg, Input(t, e), p, depth), e)
    decreases e - p, 5
  {
    hide ParseElements, Skip, Breaks;
    SkipAlike(cfg, t, e, p);
    var r := Skip(cfg, Input(t, e), p);
    if r.Ok? {
      if r.next < e { At5(t, e, r.next); }
      ElementsAlike(cfg, t, e, r.next, depth, []);
    }
  }

  lemma {:induction false} ElementsAlike(cfg: Config, t: bytes, e: nat, p: nat, depth: nat, acc: seq<Json>)
    requires cfg.json5 && Breaks(t, e) && p <= e <= |t|
    ensures Alike(ParseElements(cfg, Cut(t, e), p, depth, acc), ParseElements(cfg, Input(t, e), p, depth, acc), e)
    decreases e - p, 4
  {
    hide ParseElements, ParseValue, ParseSeparator, Breaks, OnlyTrivia;
    ElementsStep(cfg, Cut(t, e), p, depth, acc);
    ElementsStep(cfg, Input(t, e), p, depth, acc);
    ValueAlike(cfg, t, e, p, depth, false);
    var v := ParseValue(cfg, Input(t, e), p, depth, false);
    if v.Ok? {
      SeparatorAlike(cfg, t, e, v.next, RBRACKET);
      var sep := ParseSeparator(cfg, Input(t, e), v.next, RBRACKET);
      if sep.Ok? && sep.value.Another? { ElementsAlike(cfg, t, e, sep.next, depth, acc + [v.value]); }
    }
  }

  lemma {:induction false} ObjectAlike(cfg: Config, t: bytes, e: nat, p: nat, depth: nat)
    requires cfg.json5 && Breaks(t, e) && p <= e <= |t|
    ensures Alike(ParseObject(cfg, Cut(t, e), p, depth), ParseObject(cfg, Input(t, e), p, depth), e)
    decreases e - p, 5
  {
    hide ParseMembers, Skip, Breaks;
    SkipAlike(cfg, t, e, p);
    var r := Skip(cfg, Input(t, e), p);
    if r.Ok? {
      ByteAlike(t, e, r.next, RBRACE);
      MembersAlike(cfg, t, e, r.next, depth, []);
    }
  }

  lemma {:induction false} MembersAlike(cfg: Config, t: bytes, e: nat, p: nat, depth: nat, ms: seq<Member>)
    requires cfg.json5 && Breaks(t, e) && p <= e <= |t|
    ensures Alike(ParseMembers(cfg, Cut(t, e), p, depth, ms), ParseMembers(cfg, Input(t, e), p, depth, ms), e)
    decreases e - p, 4
  {
    hide ParseMembers, ParseValue, ParseSeparator, ParseKeyColon, Upsert, Breaks, OnlyTrivia;
    MembersStep(cfg, Cut(t, e), p, depth, ms);
    MembersStep(cfg, Input(t, e), p, depth, ms);
    KeyColonAlike(cfg, t, e, p, ms);
    var k := ParseKeyColon(cfg, Input(t, e), p, ms);
    if k.Ok? {
      ValueAlike(cfg, t, e, k.next, depth, false);
      var v := ParseValue(cfg, Input(t, e), k.next, depth, false);
      if v.Ok? {
        SeparatorAlike(cfg, t, e, v.next, RBRACE);
        var sep := ParseSeparator(cfg, Input(t, e), v.next, RBRACE);
        if sep.Ok? && sep.value.Another? { MembersAlike(cfg, t, e, sep.next, depth, Upsert(ms, k.value, v.value)); }
      }
    }
  }

  /** A line of comments only: refused both ways, with a code of its own. */
  lemma NothingAlike(cfg: Config, t: bytes, e: nat, depth: nat)
    requires cfg.json5 && Breaks(t, e) && e <= |t| && OnlyTrivia(cfg, t, e, 0)
    ensures ParseValue(cfg, Cut(t, e), 0, depth, true) == Fail(Positioned(UnexpectedEndOfInput, e))
    ensures ParseValue(cfg, Input(t, e), 0, depth, true) == Fail(Positioned(UnexpectedValueCharacter, e))
  {
    hide ParseArray, ParseObject, ParseScalar, Skip, Breaks;
    SkipAlike(cfg, t, e, 0);
    ByteAlike(t, e, e, LBRACE);
    ByteAlike(t, e, e, LBRACKET);
    ScalarAlike5(cfg, t, e, e, true);
  }

  /**
   One JSON5 line: the parser over the shared buffer gives exactly what the parser over the line alone gives, but for a
   line of comments only that a line break follows, where it reports an unexpected character instead of the end of
   input.
   */
  lemma DocumentAlike(cfg: Config, t: bytes, e: nat)
    requires cfg.json5 && !cfg.stripBom && Breaks(t, e) && e <= |t|
    ensures var a := ParseDocument(cfg, Cut(t, e)); var b := ParseDocument(cfg, Input(t, e));
      if OnlyTrivia(cfg, t, e, 0) then
        a == Fail(Positioned(UnexpectedEndOfInput, e)) && b == Fail(Positioned(UnexpectedValueCharacter, e))
      else a == b
  {
    hide ParseValue, Skip, Breaks;
    if OnlyTrivia(cfg, t, e, 0) {
      NothingAlike(cfg, t, e, 0);
    } else {
      ValueAlike(cfg, t, e, 0, 0, true);
      var v := ParseValue(cfg, Input(t, e), 0, 0, true);
      if v.Ok? { SkipAlike(cfg, t, e, v.next); }
    }
  }
}
