/**
 The recursive-descent parser as functions of the buffer: what Parser::parse returns for any
 text, settings and logical end, with the first failure's code and offset.
 */
module ParserSpec {
  import opened Core
  import opened Grammar
  import opened Strings
  import opened Json5Lexer

  /** skip_whitespace: RFC white space, or JSON5 trivia whose comment error ends the parse. */
  function Skip(cfg: Config, b: Input, p: nat): (r: Parsed<()>)
    requires p <= |b.buf|
    ensures r.Ok? ==> p <= r.next <= |b.buf|
  {
    if cfg.json5 then Trivia(b.buf, p, b.end) else Ok((), SkipWs(b.buf, p))
  }

  predicate ValidAfterLiteral(c: byte) {
    c == 0 || IsWs(c) || c == COMMA || c == COLON || c == RBRACKET || c == RBRACE
  }

  function AfterLiteral(cfg: Config, s: bytes, v: Json, q: nat): (r: Parsed<Json>)
    ensures r.Ok? ==> r.next == q
  {
    if !cfg.json5 && !ValidAfterLiteral(At(s, q)) then Fail(Positioned(InvalidLiteralTrailing, q)) else Ok(v, q)
  }

  /** parse_literal compares whole words against the padded buffer, not bounded by the logical end. */
  function ParseLiteral(cfg: Config, b: Input, p: nat): (r: Parsed<Json>)
    ensures r.Ok? ==> p + 4 <= r.next <= |b.buf|
  {
    var s := b.buf;
    if LiteralAt(s, p, |s|, TRUE) then AfterLiteral(cfg, s, Bool(true), p + 4)
    else if LiteralAt(s, p, |s|, NULL) then AfterLiteral(cfg, s, Null, p + 4)
    else if LiteralAt(s, p, |s|, FALSE) then AfterLiteral(cfg, s, Bool(false), p + 5)
    else Fail(Positioned(InvalidLiteral, p))
  }

  /** The first letter decides which literal can match. */
  lemma LiteralByFirst(s: bytes, p: nat)
    requires p < |s|
    ensures s[p] != 0x74 ==> !LiteralAt(s, p, |s|, TRUE)
    ensures s[p] != 0x66 ==> !LiteralAt(s, p, |s|, FALSE)
    ensures s[p] != 0x6E ==> !LiteralAt(s, p, |s|, NULL)
  {
    hide LiteralAt;
    LiteralFirst(s, p, |s|, TRUE);
    LiteralFirst(s, p, |s|, FALSE);
    LiteralFirst(s, p, |s|, NULL);
  }

  function StringToken(cfg: Config, b: Input, p: nat): (r: Parsed<bytes>)
    requires p <= |b.buf|
    ensures r.Ok? ==> p + 1 < r.next <= |b.buf|
  {
    if p >= b.end || b.buf[p] != QUOTE then Fail(Positioned(ExpectedQuote, p))
    else if cfg.json5 then ParseString5(cfg.strictUtf8, b, p, QUOTE)
    else ParseString(cfg.strictUtf8, b, p)
  }

  function AsString(r: Parsed<bytes>): Parsed<Json> {
    match r
    case Fail(e) => Fail(e)
    case Ok(t, n) => Ok(Str(t), n)
  }

  function NumberToken(cfg: Config, b: Input, p: nat): (r: Parsed<Json>)
    requires p <= |b.buf|
    ensures r.Ok? ==> p < r.next <= |b.buf|
  {
    if cfg.json5 then ParseNumber5(cfg.lib, b.buf, p, b.end) else ParseNumber(cfg.lib, b.buf, p, b.end)
  }

  predicate StartsLiteral(c: byte) { c == 0x74 || c == 0x66 || c == 0x6E }
  predicate StartsNumber(c: byte) { c == MINUS || IsDigit(c) }
  predicate StartsNumber5(c: byte) { c == PLUS || c == DOT || c == 0x49 || c == 0x4E }

  /**
   The dispatch of parse_value and parse_value_inplace for everything but containers; they differ in error codes only.
   */
  function ParseScalar(cfg: Config, b: Input, p: nat, top: bool): (r: Parsed<Json>)
    requires p <= |b.buf|
    ensures r.Ok? ==> p < r.next <= |b.buf|
  {
    var c := At(b.buf, p);
    if c == QUOTE then AsString(StringToken(cfg, b, p))
    else if StartsLiteral(c) then ParseLiteral(cfg, b, p)
    else if StartsNumber(c) then NumberToken(cfg, b, p)
    else if top && c == 0 && p >= b.end then Fail(Positioned(UnexpectedEndOfInput, p))
    else if cfg.json5 && c == APOSTROPHE then AsString(ParseString5(cfg.strictUtf8, b, p, APOSTROPHE))
    else if cfg.json5 && StartsNumber5(c) then NumberToken(cfg, b, p)
    else Fail(Positioned(if top then UnexpectedValueCharacter else UnexpectedCharacter, p))
  }

  /** Opening another container would pass the depth limit. */
  predicate TooDeep(cfg: Config, depth: nat) { cfg.maxDepth != 0 && depth + 1 > cfg.maxDepth }

  predicate Closes(b: Input, p: nat, c: byte) { p < b.end && b.buf[p] == c }

  /** A member key: a quoted string, or under JSON5 also a single-quoted string or an identifier. */
  function ParseKey(cfg: Config, b: Input, p: nat): (r: Parsed<bytes>)
    requires p <= |b.buf|
    ensures r.Ok? ==> p < r.next <= |b.buf|
  {
    if cfg.json5 && p < b.end && b.buf[p] == APOSTROPHE then ParseString5(cfg.strictUtf8, b, p, APOSTROPHE)
    else if cfg.json5 && p < b.end && b.buf[p] != QUOTE then ParseIdentKey(cfg, b.buf, p, b.end)
    else if At(b.buf, p) != QUOTE then Fail(Positioned(ExpectedStringKey, p))
    else StringToken(cfg, b, p)
  }

  /** A key, the strict duplicate test against the entries so far, and the colon. */
  function ParseKeyColon(cfg: Config, b: Input, p: nat, ms: seq<Member>): (r: Parsed<bytes>)
    requires p <= |b.buf|
    ensures r.Ok? ==> p < r.next <= |b.buf|
  {
    match Skip(cfg, b, p)
    case Fail(e) => Fail(e)
    case Ok(_, k) =>
      match ParseKey(cfg, b, k)
      case Fail(e) => Fail(e)
      case Ok(key, q) =>
        if cfg.strictKeys && key in Keys(ms) then Fail(ContextFree(DuplicateKey))
        else
          match Skip(cfg, b, q)
          case Fail(e) => Fail(e)
          case Ok(_, c) =>
            if At(b.buf, c) != COLON then Fail(Positioned(ExpectedColon, c)) else Ok(key, c + 1)
  }

  /** What follows an element or member: the container closes, or another one starts at `next`. */
  datatype More = Done | Another

  /** After a value in a container closed by `close`. */
  function ParseSeparator(cfg: Config, b: Input, p: nat, close: byte): (r: Parsed<More>)
    requires p <= |b.buf| && close != 0
    ensures r.Ok? ==> p < r.next <= |b.buf|
  {
    match Skip(cfg, b, p)
    case Fail(e) => Fail(e)
    case Ok(_, r) =>
      var c := At(b.buf, r);
      if close == RBRACE && r >= b.end then Fail(Positioned(UnexpectedEndOfObject, r))
      else if c == close then Ok(Done, r + 1)
      else if c == COMMA then
        if cfg.json5 then
          match Skip(cfg, b, r + 1)
          case Fail(e) => Fail(e)
          case Ok(_, t) => if Closes(b, t, close) then Ok(Done, t + 1) else Ok(Another, t)
        else Ok(Another, r + 1)
      else Fail(Positioned(if close == RBRACE then ExpectedCommaOrBrace else ExpectedCommaOrBracket, r))
  }

  /** A value at p inside `depth` open containers. */
  function ParseValue(cfg: Config, b: Input, p: nat, depth: nat, top: bool): (r: Parsed<Json>)
    requires p <= |b.buf|
    ensures r.Ok? ==> p < r.next <= |b.buf|
    decreases |b.buf| - p, 3
  {
    match Skip(cfg, b, p)
    case Fail(e) => Fail(e)
    case Ok(_, q) =>
      var c := At(b.buf, q);
      if c == LBRACE then
        if TooDeep(cfg, depth) then Fail(Positioned(MaxDepthExceeded, q)) else ParseObject(cfg, b, q + 1, depth + 1)
      else if c == LBRACKET then
        if TooDeep(cfg, depth) then Fail(Positioned(MaxDepthExceeded, q)) else ParseArray(cfg, b, q + 1, depth + 1)
      else ParseScalar(cfg, b, q, top)
  }

  /** An array whose '[' was just consumed. */
  function ParseArray(cfg: Config, b: Input, p: nat, depth: nat): (r: Parsed<Json>)
    requires p <= |b.buf|
    ensures r.Ok? ==> p < r.next <= |b.buf|
    decreases |b.buf| - p, 5
  {
    match Skip(cfg, b, p)
    case Fail(e) => Fail(e)
    case Ok(_, q) =>
      if Closes(b, q, RBRACKET) then Ok(Arr([]), q + 1) else ParseElements(cfg, b, q, depth, [])
  }

  function ParseElements(cfg: Config, b: Input, p: nat, depth: nat, acc: seq<Json>): (r: Parsed<Json>)
    requires p <= |b.buf|
    ensures r.Ok? ==> p < r.next <= |b.buf|
    decreases |b.buf| - p, 4
  {
    match ParseValue(cfg, b, p, depth, false)
    case Fail(e) => Fail(e)
    case Ok(v, q) =>
      match ParseSeparator(cfg, b, q, RBRACKET)
      case Fail(e) => Fail(e)
      case Ok(Done, n) => Ok(Arr(acc + [v]), n)
      case Ok(Another, n) => ParseElements(cfg, b, n, depth, acc + [v])
  }

  /** An object whose '{' was just consumed. */
  function ParseObject(cfg: Config, b: Input, p: nat, depth: nat): (r: Parsed<Json>)
    requires p <= |b.buf|
    ensures r.Ok? ==> p < r.next <= |b.buf|
    decreases |b.buf| - p, 5
  {
    match Skip(cfg, b, p)
    case Fail(e) => Fail(e)
    case Ok(_, q) =>
      if At(b.buf, q) == RBRACE then Ok(Obj([]), q + 1) else ParseMembers(cfg, b, q, depth, [])
  }

  /** Members from p on, inserted last-wins into ms. */
  function ParseMembers(cfg: Config, b: Input, p: nat, depth: nat, ms: seq<Member>): (r: Parsed<Json>)
    requires p <= |b.buf|
    ensures r.Ok? ==> p < r.next <= |b.buf|
    decreases |b.buf| - p, 4
  {
    match ParseKeyColon(cfg, b, p, ms)
    case Fail(e) => Fail(e)
    case Ok(key, q) =>
      match ParseValue(cfg, b, q, depth, false)
      case Fail(e) => Fail(e)
      case Ok(v, n) =>
        match ParseSeparator(cfg, b, n, RBRACE)
        case Fail(e) => Fail(e)
        case Ok(Done, m) => Ok(Obj(Upsert(ms, key, v)), m)
        case Ok(Another, m) => ParseMembers(cfg, b, m, depth, Upsert(ms, key, v))
  }

  const BOM: bytes := [0xEF, 0xBB, 0xBF]

  function SkipBom(cfg: Config, b: Input): (p: nat)
    ensures p <= b.end
  {
    if cfg.stripBom && LiteralAt(b.buf, 0, b.end, BOM) then 3 else 0
  }

  /** Parser::parse: one value, then nothing but white space up to the logical end. */
  function ParseDocument(cfg: Config, b: Input): (r: Parsed<Json>)
    ensures r.Ok? ==> 0 < r.next <= |b.buf|
  {
    match ParseValue(cfg, b, SkipBom(cfg, b), 0, true)
    case Fail(e) => Fail(e)
    case Ok(v, q) =>
      match Skip(cfg, b, q)
      case Fail(e) => Fail(e)
      case Ok(_, r) => if r < b.end then Fail(Positioned(ExtraCharactersAfterValue, r)) else Ok(v, r)
  }

  // ---- one step of each function, for proofs that keep the rest closed ----

  lemma ArrayOpens(cfg: Config, b: Input, p: nat, q: nat, depth: nat, top: bool)
    requires p <= |b.buf| && Skip(cfg, b, p) == Ok((), q) && At(b.buf, q) == LBRACKET
    ensures ParseValue(cfg, b, p, depth, top) ==
      if TooDeep(cfg, depth) then Fail(Positioned(MaxDepthExceeded, q)) else ParseArray(cfg, b, q + 1, depth + 1)
  {
    hide ParseArray, ParseObject, ParseScalar, Skip;
  }

  lemma ObjectOpens(cfg: Config, b: Input, p: nat, q: nat, depth: nat, top: bool)
    requires p <= |b.buf| && Skip(cfg, b, p) == Ok((), q) && At(b.buf, q) == LBRACE
    ensures ParseValue(cfg, b, p, depth, top) ==
      if TooDeep(cfg, depth) then Fail(Positioned(MaxDepthExceeded, q)) else ParseObject(cfg, b, q + 1, depth + 1)
  {
    hide ParseArray, ParseObject, ParseScalar, Skip;
  }

  lemma ScalarAt(cfg: Config, b: Input, p: nat, q: nat, depth: nat, top: bool)
    requires p <= |b.buf| && Skip(cfg, b, p) == Ok((), q) && At(b.buf, q) != LBRACE && At(b.buf, q) != LBRACKET
    ensures ParseValue(cfg, b, p, depth, top) == ParseScalar(cfg, b, q, top)
  {
    hide ParseArray, ParseObject, ParseScalar, Skip;
  }

  lemma ElementsStep(cfg: Config, b: Input, p: nat, depth: nat, acc: seq<Json>)
    requires p <= |b.buf|
    ensures var r := ParseElements(cfg, b, p, depth, acc); var v := ParseValue(cfg, b, p, depth, false);
      if v.Fail? then r == Fail(v.error)
      else
        var sep := ParseSeparator(cfg, b, v.next, RBRACKET);
        if sep.Fail? then r == Fail(sep.error)
        else if sep.value.Done? then r == Ok(Arr(acc + [v.value]), sep.next)
        else r == ParseElements(cfg, b, sep.next, depth, acc + [v.value])
  {
    hide ParseValue, ParseSeparator;
  }

  lemma MembersStep(cfg: Config, b: Input, p: nat, depth: nat, ms: seq<Member>)
    requires p <= |b.buf|
    ensures var r := ParseMembers(cfg, b, p, depth, ms); var k := ParseKeyColon(cfg, b, p, ms);
      if k.Fail? then r == Fail(k.error)
      else
        var v := ParseValue(cfg, b, k.next, depth, false);
        if v.Fail? then r == Fail(v.error)
        else
          var sep := ParseSeparator(cfg, b, v.next, RBRACE);
          if sep.Fail? then r == Fail(sep.error)
          else if sep.value.Done? then r == Ok(Obj(Upsert(ms, k.value, v.value)), sep.next)
          else r == ParseMembers(cfg, b, sep.next, depth, Upsert(ms, k.value, v.value))
  {
    hide ParseValue, ParseSeparator, ParseKeyColon;
  }
}
