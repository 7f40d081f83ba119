/**
 The compile-time validator against the runtime parser in RFC mode with unlimited depth: the parser accepts exactly the
 texts the validator accepts in which every number token fits int64 or passes the double range gate.
 */
module ValidateAgreement {
  import opened Core
  import opened Grammar
  import opened Strings
  import opened Utf8
  import opened Numbers
  import opened Json5Lexer
  import opened ParserSpec
  import opened Validate

  // ---- strings ----

  lemma HexAgrees(s: bytes, p: nat)
    ensures VHex4(s, p).Some? <==> Hex4(s, p).Ok?
    ensures VHex4(s, p).Some? ==> Hex4(s, p) == Ok(VHex4(s, p).value, p + 4)
  {
  }

  lemma EscapeAgrees(s: bytes, p: nat)
    requires p < |s|
    ensures VEscape(s, p).Some? <==> Escape(s, p).Ok?
    ensures VEscape(s, p).Some? ==> Escape(s, p).next == VEscape(s, p).value
  {
    hide Hex4, VHex4, JoinPair, EncodeUtf8, HexValue;
    HexAgrees(s, p + 2);
    HexAgrees(s, p + 8);
  }

  lemma {:induction false} DecodeAgrees(s: bytes, p: nat, acc: bytes)
    requires p <= |s|
    ensures VString(s, p).Some? <==> Decode(false, s, p, Fresh, acc).Ok?
    ensures VString(s, p).Some? ==> Decode(false, s, p, Fresh, acc).next == VString(s, p).value
    decreases |s| - p
  {
    if p < |s| {
      var c := s[p];
      if c == BACKSLASH {
        EscapeAgrees(s, p);
        hide Escape, VEscape;
        if Escape(s, p).Ok? { DecodeAgrees(s, Escape(s, p).next, acc + Escape(s, p).value); }
      } else if c != QUOTE && c >= 0x20 {
        DecodeAgrees(s, p + 1, acc + [c]);
      }
    }
  }

  lemma StringAgrees(s: bytes, p: nat)
    requires p < |s| && s[p] == QUOTE
    ensures var r := ParseString(false, Whole(s), p); var v := VString(s, p + 1);
      (r.Ok? <==> v.Some?) && (r.Ok? ==> r.next == v.value)
  {
    hide ParseString, Decode, VString;
    FastPathAgrees(false, Whole(s), p);
    DecodeAgrees(s, p + 1, []);
  }

  // ---- values ----

  /** The parser settings under which the two are compared. */
  predicate Plain(cfg: Config) {
    !cfg.json5 && !cfg.strictKeys && !cfg.strictUtf8 && !cfg.stripBom && cfg.maxDepth == 0
  }

  /** from_chars refused a number. */
  predicate RangeFailure<T>(r: Parsed<T>) {
    r.Fail? && r.error.Positioned? && (r.error.code == NumberOutOfRange || r.error.code == NumberInvalidFormat)
  }

  /** A byte that may follow a value in a text the validator accepts. */
  predicate Ends(s: bytes, n: nat) {
    ValidAfterLiteral(At(s, n))
  }

  // ---- the numbers of a text ----

  /** The number token at q is taken as an integer, or from_chars finds it in range. */
  predicate NumberPasses(lib: FloatLib, s: bytes, q: nat)
    requires q <= |s|
  {
    var sc := Scan(s, q, |s|);
    !sc.err.NumOk? || TakesInteger(s, sc) || lib.fromChars(s[q..sc.next]).InRange?
  }

  /** Every number token of the value at p passes: a walk over the text, as the validator's. */
  predicate ValuePasses(lib: FloatLib, s: bytes, p: nat)
    requires p <= |s|
    decreases |s| - p, 3
  {
    var q := SkipWs(s, p);
    q == |s|
    || (if s[q] == LBRACKET then ArrayPasses(lib, s, q + 1)
        else if s[q] == LBRACE then ObjectPasses(lib, s, q + 1)
        else StartsNumber(s[q]) ==> NumberPasses(lib, s, q))
  }

  predicate ArrayPasses(lib: FloatLib, s: bytes, p: nat)
    requires p <= |s|
    decreases |s| - p, 5
  {
    var q := SkipWs(s, p);
    At(s, q) == RBRACKET || ElementsPass(lib, s, q)
  }

  predicate ElementsPass(lib: FloatLib, s: bytes, p: nat)
    requires p <= |s|
    decreases |s| - p, 4
  {
    ValuePasses(lib, s, p)
    && match VValue(s, p)
       case None => true
       case Some(n) => var q := SkipWs(s, n); At(s, q) == COMMA ==> ElementsPass(lib, s, SkipWs(s, q + 1))
  }

  predicate ObjectPasses(lib: FloatLib, s: bytes, p: nat)
    requires p <= |s|
    decreases |s| - p, 5
  {
    var q := SkipWs(s, p);
    At(s, q) == RBRACE || MembersPass(lib, s, q)
  }

  predicate MembersPass(lib: FloatLib, s: bytes, p: nat)
    requires p <= |s|
    decreases |s| - p, 4
  {
    match VKey(s, p)
    case None => true
    case Some(c) =>
      ValuePasses(lib, s, c)
      && match VValue(s, c)
         case None => true
         case Some(n) => var q := SkipWs(s, n); At(s, q) == COMMA ==> MembersPass(lib, s, q + 1)
  }

  predicate NumbersPass(lib: FloatLib, s: bytes) { ValuePasses(lib, s, 0) }

  // ---- what agreement means ----

  /** Same end with passing numbers, or the validator accepts what the range gate refuses. */
  predicate Matches(r: Parsed<Json>, v: Option<nat>, passes: bool) {
    match r
    case Ok(_, n) => v == Some(n) && passes
    case Fail(_) => v.Some? ==> RangeFailure(r) && !passes
  }

  /** What the parser accepts the validator accepts to the same end; the converse needs a byte that may follow. */
  predicate Compatible(s: bytes, r: Parsed<Json>, v: Option<nat>, passes: bool) {
    match r
    case Ok(_, n) => v == Some(n) && passes
    case Fail(_) => v.Some? && Ends(s, v.value) ==> RangeFailure(r) && !passes
  }

  lemma LiteralAgrees(cfg: Config, s: bytes, q: nat, lit: bytes)
    requires Plain(cfg) && q < |s| && lit == (if s[q] == 0x74 then TRUE else if s[q] == 0x66 then FALSE else NULL)
    requires StartsLiteral(s[q])
    ensures Compatible(s, ParseLiteral(cfg, Whole(s), q), VLiteral(s, q, lit), true)
  {
    hide LiteralAt, ValidAfterLiteral;
    LiteralByFirst(s, q);
  }

  lemma NumberAgrees(cfg: Config, s: bytes, q: nat)
    requires Plain(cfg) && q < |s|
    ensures Matches(ParseNumber(cfg.lib, s, q, |s|), VNumber(s, q), NumberPasses(cfg.lib, s, q))
  {
    hide Scan;
    var sc := Scan(s, q, |s|);
    if sc.err.NumOk? { ScanShape(s, q, |s|); }
  }

  /** A value that starts with no digit and no minus is no number. */
  lemma NoNumber(s: bytes, q: nat)
    requires q < |s| && !StartsNumber(s[q])
    ensures VNumber(s, q).None?
  {
  }

  lemma ScalarAgrees(cfg: Config, s: bytes, q: nat, top: bool)
    requires Plain(cfg) && q < |s| && !IsWs(s[q]) && s[q] != LBRACE && s[q] != LBRACKET
    ensures Compatible(s, ParseScalar(cfg, Whole(s), q, top), VValue(s, q), ValuePasses(cfg.lib, s, q))
  {
    hide ParseString, VString, ParseLiteral, VLiteral, ParseNumber, VNumber, ParseString5, ParseNumber5, NumberPasses;
    var c := s[q];
    assert SkipWs(s, q) == q;
    if c == QUOTE {
      StringAgrees(s, q);
    } else if StartsLiteral(c) {
      LiteralAgrees(cfg, s, q, if c == 0x74 then TRUE else if c == 0x66 then FALSE else NULL);
    } else if StartsNumber(c) {
      NumberAgrees(cfg, s, q);
    } else {
      NoNumber(s, q);
    }
  }

  /** A text position the two recognisers both skip to. */
  predicate SameStart(s: bytes, p: nat, x: nat) {
    p <= |s| && x <= |s| && SkipWs(s, p) == SkipWs(s, x)
  }

  lemma VValueAt(s: bytes, x: nat)
    requires x <= |s|
    ensures VValue(s, x) == VValue(s, SkipWs(s, x))
    ensures SkipWs(s, x) == |s| ==> VValue(s, x).None?
    ensures forall lib :: ValuePasses(lib, s, x) == ValuePasses(lib, s, SkipWs(s, x))
  {
    hide VLiteral, VString, VArray, VObject, VNumber, ArrayPasses, ObjectPasses, NumberPasses;
    assert SkipWs(s, SkipWs(s, x)) == SkipWs(s, x);
  }

  lemma {:induction false} ValueAgrees(cfg: Config, s: bytes, p: nat, x: nat, depth: nat, top: bool)
    requires Plain(cfg) && SameStart(s, p, x)
    ensures Compatible(s, ParseValue(cfg, Whole(s), p, depth, top), VValue(s, x), ValuePasses(cfg.lib, s, x))
    decreases |s| - SkipWs(s, p), 3
  {
    var q := SkipWs(s, p);
    VValueAt(s, x);
    if q < |s| && (s[q] == LBRACKET || s[q] == LBRACE) {
      ContainerAgrees(cfg, s, p, q, depth, top);
    } else {
      ScalarAt(cfg, Whole(s), p, q, depth, top);
      hide ParseScalar, ParseValue, VValue, ValuePasses;
      if q < |s| { ScalarAgrees(cfg, s, q, top); }
    }
  }

  lemma {:induction false} ContainerAgrees(cfg: Config, s: bytes, p: nat, q: nat, depth: nat, top: bool)
    requires Plain(cfg) && p <= |s| && SkipWs(s, p) == q < |s| && (s[q] == LBRACKET || s[q] == LBRACE)
    ensures Compatible(s, ParseValue(cfg, Whole(s), p, depth, top), VValue(s, q), ValuePasses(cfg.lib, s, q))
    decreases |s| - q, 2
  {
    hide ParseValue, ParseArray, ParseObject, VValue, VArray, VObject, ValuePasses, ArrayPasses, ObjectPasses;
    VContainer(cfg.lib, s, q);
    if s[q] == LBRACKET {
      ArrayOpens(cfg, Whole(s), p, q, depth, top);
      ArrayAgrees(cfg, s, q + 1, depth + 1);
    } else {
      ObjectOpens(cfg, Whole(s), p, q, depth, top);
      ObjectAgrees(cfg, s, q + 1, depth + 1);
    }
  }

  lemma VContainer(lib: FloatLib, s: bytes, q: nat)
    requires q < |s| && (s[q] == LBRACKET || s[q] == LBRACE)
    ensures VValue(s, q) == if s[q] == LBRACKET then VArray(s, q + 1) else VObject(s, q + 1)
    ensures ValuePasses(lib, s, q) == if s[q] == LBRACKET then ArrayPasses(lib, s, q + 1)
      else ObjectPasses(lib, s, q + 1)
  {
    hide VArray, VObject, VString, VNumber, ArrayPasses, ObjectPasses, NumberPasses;
    assert SkipWs(s, q) == q;
  }

  lemma {:induction false} ArrayAgrees(cfg: Config, s: bytes, p: nat, depth: nat)
    requires Plain(cfg) && p <= |s|
    ensures Matches(ParseArray(cfg, Whole(s), p, depth), VArray(s, p), ArrayPasses(cfg.lib, s, p))
    decreases |s| - p, 5
  {
    hide ParseElements, VElements, ElementsPass;
    var q := SkipWs(s, p);
    assert SkipWs(s, q) == q;
    ElementsAgree(cfg, s, q, q, depth, []);
  }

  /** The separator step of the parser, in RFC mode. */
  lemma SeparatorIs(cfg: Config, s: bytes, n: nat, close: byte)
    requires Plain(cfg) && n <= |s| && (close == RBRACKET || close == RBRACE)
    ensures var sep := ParseSeparator(cfg, Whole(s), n, close); var q := SkipWs(s, n);
      if At(s, q) == close then sep == Ok(Done, q + 1)
      else if At(s, q) == COMMA then sep == Ok(Another, q + 1)
      else sep.Fail? && !RangeFailure(sep)
  {
  }

  /** A byte that ends no value is no separator either. */
  lemma NotASeparator(s: bytes, n: nat)
    requires n <= |s| && !Ends(s, n)
    ensures SkipWs(s, n) == n && At(s, n) != COMMA && At(s, n) != RBRACKET && At(s, n) != RBRACE
  {
  }

  /** What the parser makes of the text behind an element. */
  function ElementsRest(cfg: Config, b: Input, n: nat, depth: nat, acc: seq<Json>): Parsed<Json>
    requires n <= |b.buf|
  {
    var sep := ParseSeparator(cfg, b, n, RBRACKET);
    if sep.Fail? then Fail(sep.error)
    else if sep.value.Done? then Ok(Arr(acc), sep.next)
    else ParseElements(cfg, b, sep.next, depth, acc)
  }

  function VElementsRest(s: bytes, n: nat): Option<nat>
    requires n <= |s|
  {
    var q := SkipWs(s, n);
    if At(s, q) == RBRACKET then Some(q + 1)
    else if At(s, q) == COMMA then VElements(s, SkipWs(s, q + 1))
    else None
  }

  predicate ElementsRestPass(lib: FloatLib, s: bytes, n: nat)
    requires n <= |s|
  {
    var q := SkipWs(s, n);
    At(s, q) == COMMA ==> ElementsPass(lib, s, SkipWs(s, q + 1))
  }

  lemma {:induction false} ElementsRestAgrees(cfg: Config, s: bytes, n: nat, depth: nat, acc: seq<Json>)
    requires Plain(cfg) && n <= |s|
    ensures Matches(ElementsRest(cfg, Whole(s), n, depth, acc), VElementsRest(s, n), ElementsRestPass(cfg.lib, s, n))
    ensures !Ends(s, n) ==> VElementsRest(s, n).None?
    decreases |s| - SkipWs(s, n), 5
  {
    hide ParseElements, VElements, ParseSeparator, ElementsPass;
    var q := SkipWs(s, n);
    SeparatorIs(cfg, s, n, RBRACKET);
    if !Ends(s, n) { NotASeparator(s, n); }
    if At(s, q) == COMMA {
      assert SkipWs(s, SkipWs(s, q + 1)) == SkipWs(s, q + 1);
      ElementsAgree(cfg, s, q + 1, SkipWs(s, q + 1), depth, acc);
    }
  }

  lemma {:induction false} ElementsAgree(cfg: Config, s: bytes, p: nat, x: nat, depth: nat, acc: seq<Json>)
    requires Plain(cfg) && SameStart(s, p, x)
    ensures Matches(ParseElements(cfg, Whole(s), p, depth, acc), VElements(s, x), ElementsPass(cfg.lib, s, x))
    decreases |s| - SkipWs(s, p), 4
  {
    hide ParseElements, ParseValue, ParseSeparator, VElements, VValue, SkipWs, Ends, ElementsPass, ValuePasses,
      ElementsRestPass;
    ValueAgrees(cfg, s, p, x, depth, false);
    ElementsStep(cfg, Whole(s), p, depth, acc);
    VElementsStep(cfg.lib, s, x);
    var v, pv := VValue(s, x), ParseValue(cfg, Whole(s), p, depth, false);
    if v.Some? {
      ValueEnd(s, x);
      ElementsRestAgrees(cfg, s, v.value, depth, if pv.Ok? then acc + [pv.value] else acc);
    }
  }

  /** A value ends behind its first byte. */
  lemma ValueEnd(s: bytes, x: nat)
    requires x <= |s| && VValue(s, x).Some?
    ensures SkipWs(s, x) < VValue(s, x).value <= |s|
  {
    VValueAt(s, x);
  }

  lemma VElementsStep(lib: FloatLib, s: bytes, x: nat)
    requires x <= |s|
    ensures ElementsPass(lib, s, x) <==>
      ValuePasses(lib, s, x) && (VValue(s, x).Some? ==> ElementsRestPass(lib, s, VValue(s, x).value))
    ensures var v := VValue(s, x); var r := VElements(s, x);
      if v.None? then r.None?
      else
        var q := SkipWs(s, v.value);
        if At(s, q) == RBRACKET then r == Some(q + 1)
        else if At(s, q) == COMMA then r == VElements(s, SkipWs(s, q + 1))
        else r.None?
  {
    hide VValue, ValuePasses;
  }

  // ---- objects ----

  lemma {:induction false} ObjectAgrees(cfg: Config, s: bytes, p: nat, depth: nat)
    requires Plain(cfg) && p <= |s|
    ensures Matches(ParseObject(cfg, Whole(s), p, depth), VObject(s, p), ObjectPasses(cfg.lib, s, p))
    decreases |s| - p, 5
  {
    hide ParseMembers, VMembers, MembersPass;
    var q := SkipWs(s, p);
    assert SkipWs(s, q) == q;
    MembersAgree(cfg, s, q, depth, []);
  }

  lemma KeyAgrees(cfg: Config, s: bytes, p: nat, acc: seq<Member>)
    requires Plain(cfg) && p <= |s|
    ensures var k := ParseKeyColon(cfg, Whole(s), p, acc); var v := VKey(s, p);
      (k.Ok? <==> v.Some?) && (k.Ok? ==> k.next == v.value) && SkipWs(s, p) < (if v.Some? then v.value else |s| + 1)
  {
    hide ParseString, VString;
    var q := SkipWs(s, p);
    if q < |s| && s[q] == QUOTE { StringAgrees(s, q); }
  }

  function MembersRest(cfg: Config, b: Input, n: nat, depth: nat, acc: seq<Member>): Parsed<Json>
    requires n <= |b.buf|
  {
    var sep := ParseSeparator(cfg, b, n, RBRACE);
    if sep.Fail? then Fail(sep.error)
    else if sep.value.Done? then Ok(Obj(acc), sep.next)
    else ParseMembers(cfg, b, sep.next, depth, acc)
  }

  function VMembersRest(s: bytes, n: nat): Option<nat>
    requires n <= |s|
  {
    var q := SkipWs(s, n);
    if At(s, q) == RBRACE then Some(q + 1)
    else if At(s, q) == COMMA then VMembers(s, q + 1)
    else None
  }

  predicate MembersRestPass(lib: FloatLib, s: bytes, n: nat)
    requires n <= |s|
  {
    var q := SkipWs(s, n);
    At(s, q) == COMMA ==> MembersPass(lib, s, q + 1)
  }

  lemma {:induction false} MembersRestAgrees(cfg: Config, s: bytes, n: nat, depth: nat, acc: seq<Member>)
    requires Plain(cfg) && n <= |s|
    ensures Matches(MembersRest(cfg, Whole(s), n, depth, acc), VMembersRest(s, n), MembersRestPass(cfg.lib, s, n))
    ensures !Ends(s, n) ==> VMembersRest(s, n).None?
    decreases |s| - SkipWs(s, n), 5
  {
    hide ParseMembers, VMembers, ParseSeparator, MembersPass;
    var q := SkipWs(s, n);
    SeparatorIs(cfg, s, n, RBRACE);
    if !Ends(s, n) { NotASeparator(s, n); }
    if At(s, q) == COMMA {
      SkipsOn(s, q + 1);
      MembersAgree(cfg, s, q + 1, depth, acc);
    }
  }

  /** A member's value and everything behind it. */
  function AfterKey(cfg: Config, b: Input, c: nat, depth: nat, acc: seq<Member>, key: bytes): Parsed<Json>
    requires c <= |b.buf|
  {
    var pv := ParseValue(cfg, b, c, depth, false);
    if pv.Fail? then Fail(pv.error) else MembersRest(cfg, b, pv.next, depth, Upsert(acc, key, pv.value))
  }

  function VAfterKey(s: bytes, c: nat): Option<nat>
    requires c <= |s|
  {
    var v := VValue(s, c);
    if v.None? then None else VMembersRest(s, v.value)
  }

  predicate AfterKeyPasses(lib: FloatLib, s: bytes, c: nat)
    requires c <= |s|
  {
    ValuePasses(lib, s, c) && (VValue(s, c).Some? ==> MembersRestPass(lib, s, VValue(s, c).value))
  }

  lemma {:induction false} MemberValueAgrees(cfg: Config, s: bytes, c: nat, depth: nat, acc: seq<Member>, key: bytes)
    requires Plain(cfg) && c <= |s|
    ensures Matches(AfterKey(cfg, Whole(s), c, depth, acc, key), VAfterKey(s, c), AfterKeyPasses(cfg.lib, s, c))
    decreases |s| - c, 6
  {
    hide ParseValue, VValue, SkipWs, Ends, Upsert, MembersRest, VMembersRest, ValuePasses, MembersRestPass;
    SkipsOn(s, c);
    ValueAgrees(cfg, s, c, c, depth, false);
    var v, pv := VValue(s, c), ParseValue(cfg, Whole(s), c, depth, false);
    if v.Some? {
      ValueEnd(s, c);
      SkipsOn(s, v.value);
      MembersRestAgrees(cfg, s, v.value, depth, if pv.Ok? then Upsert(acc, key, pv.value) else acc);
    }
  }

  lemma MembersParts(cfg: Config, s: bytes, p: nat, depth: nat, acc: seq<Member>)
    requires p <= |s|
    ensures var k := ParseKeyColon(cfg, Whole(s), p, acc);
      ParseMembers(cfg, Whole(s), p, depth, acc) ==
        if k.Fail? then Fail(k.error) else AfterKey(cfg, Whole(s), k.next, depth, acc, k.value)
    ensures var k := VKey(s, p); VMembers(s, p) == if k.None? then None else VAfterKey(s, k.value)
    ensures var k := VKey(s, p); k.Some? ==> MembersPass(cfg.lib, s, p) == AfterKeyPasses(cfg.lib, s, k.value)
  {
    hide ParseMembers, ParseValue, ParseSeparator, ParseKeyColon, VMembers, VValue, VKey, Upsert, SkipWs, ValuePasses;
    MembersStep(cfg, Whole(s), p, depth, acc);
    VMembersStep(s, p);
  }

  lemma {:induction false} MembersAgree(cfg: Config, s: bytes, p: nat, depth: nat, acc: seq<Member>)
    requires Plain(cfg) && p <= |s|
    ensures Matches(ParseMembers(cfg, Whole(s), p, depth, acc), VMembers(s, p), MembersPass(cfg.lib, s, p))
    decreases |s| - SkipWs(s, p), 4
  {
    hide ParseMembers, ParseKeyColon, VMembers, VKey, AfterKey, VAfterKey, SkipWs, MembersPass, AfterKeyPasses;
    KeyAgrees(cfg, s, p, acc);
    MembersParts(cfg, s, p, depth, acc);
    var k := ParseKeyColon(cfg, Whole(s), p, acc);
    if k.Ok? { MemberValueAgrees(cfg, s, k.next, depth, acc, k.value); }
  }

  lemma SkipsOn(s: bytes, p: nat)
    requires p <= |s|
    ensures SkipWs(s, p) >= p
  {
  }

  lemma VMembersStep(s: bytes, p: nat)
    requires p <= |s|
    ensures var k := VKey(s, p); var r := VMembers(s, p);
      if k.None? then r.None?
      else
        var v := VValue(s, k.value);
        if v.None? then r.None?
        else
          var q := SkipWs(s, v.value);
          if At(s, q) == RBRACE then r == Some(q + 1)
          else if At(s, q) == COMMA then r == VMembers(s, q + 1)
          else r.None?
  {
    hide VValue, VKey;
  }

  // ---- whole texts ----

  /**
   The parser (RFC mode, unlimited depth, no further strictness) accepts a text if and only if the validator does and
   every number token of the text passes the double range gate; a valid text it refuses, it refuses with that gate's
   error.
   */
  lemma ValidatorAgreesWithParser(cfg: Config, s: bytes)
    requires Plain(cfg)
    ensures var d := ParseDocument(cfg, Whole(s));
      (d.Ok? <==> ValidText(s) && NumbersPass(cfg.lib, s)) && (d.Fail? && ValidText(s) ==> RangeFailure(d))
  {
    hide ParseValue, VValue, ValuePasses;
    ValueAgrees(cfg, s, 0, 0, 0, true);
    var pv, v := ParseValue(cfg, Whole(s), 0, 0, true), VValue(s, 0);
    if v.Some? && !Ends(s, v.value) { NotASeparator(s, v.value); }
  }
}
