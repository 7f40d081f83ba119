/**
 The texts of JSON5 and what they stand for, as relations between spans of a text and values, stated without a scanner.
 What a floating-point token stands for is left to the conversion functions of FloatLib, and which code points may start
 or continue an identifier to the two tables of the configuration.
 */
module Json5Grammar {
  import opened Core
  import opened Lexis
  import opened StringMeaning

  import Grammar

  // ---- white space and comments ----

  /** From `//` to the line break that ends it, or to the end of the text. */
  predicate LineComment(s: bytes, p: nat, n: nat) {
    && p + 2 <= n <= |s| && s[p] == '/' as int && s[p + 1] == '/' as int
    && (forall i :: p + 2 <= i < n ==> !LineBreak(s, i)) && (n == |s| || LineBreak(s, n))
  }

  predicate ClosesBlock(s: bytes, i: nat) { i + 2 <= |s| && s[i] == '*' as int && s[i + 1] == '/' as int }

  /** Between an opening and the first closing mark behind it. */
  predicate BlockComment(s: bytes, p: nat, n: nat) {
    && p + 4 <= n <= |s| && s[p] == '/' as int && s[p + 1] == '*' as int
    && ClosesBlock(s, n - 2) && forall i :: p + 2 <= i < n - 2 ==> !ClosesBlock(s, i)
  }

  predicate Piece(s: bytes, p: nat, n: nat) { White(s, p, n) || LineComment(s, p, n) || BlockComment(s, p, n) }

  ghost predicate Blank5(s: bytes, p: nat, q: nat)
    decreases q - p
  {
    || p == q <= |s|
    || exists n: nat :: p < n <= q && Piece(s, p, n) && Blank5(s, n, q)
  }

  /** White space or a comment starts at p, be the comment closed or not. */
  ghost predicate OpensBlank(s: bytes, p: nat) {
    || (exists n: nat :: White(s, p, n))
    || (p + 2 <= |s| && s[p] == '/' as int && (s[p + 1] == '/' as int || s[p + 1] == '*' as int))
  }

  // ---- names ----

  /** A character of an identifier: a well-formed one as it is, or one escaped. */
  ghost predicate NameChar(s: bytes, p: nat, n: nat, cp: nat) {
    && cp < 0x110000
    && (|| Unicode(s, p, n, cp)
        || (&& p < n <= |s| && s[p] != '\\' as int && !HighSurrogate(cp) && !LowSurrogate(cp)
            && s[p..n] == Utf8Of(cp)))
  }

  ghost predicate NameRest(cfg: Config, s: bytes, p: nat, q: nat, t: bytes)
    decreases q - p
  {
    if p == q then t == []
    else exists n: nat, cp: nat ::
      && p < n <= q && cp < 0x110000 && NameChar(s, p, n, cp) && cfg.identPart(cp)
      && Utf8Of(cp) <= t && NameRest(cfg, s, n, q, t[|Utf8Of(cp)|..])
  }

  ghost predicate NameGoesOn(cfg: Config, s: bytes, q: nat) {
    exists n: nat, cp: nat :: NameChar(s, q, n, cp) && cfg.identPart(cp)
  }

  /** An identifier as long as it can be. */
  ghost predicate Name(cfg: Config, s: bytes, p: nat, q: nat, t: bytes) {
    && !NameGoesOn(cfg, s, q)
    && exists n: nat, cp: nat ::
         && p < n <= q && cp < 0x110000 && NameChar(s, p, n, cp) && cfg.identStart(cp)
         && Utf8Of(cp) <= t && NameRest(cfg, s, n, q, t[|Utf8Of(cp)|..])
  }

  /** A member name: a string in either quotes, or an identifier that begins as nothing else does. */
  ghost predicate Key5(cfg: Config, s: bytes, p: nat, q: nat, t: bytes) {
    || String5Is(s, p, q, '"' as int, t)
    || String5Is(s, p, q, '\'' as int, t)
    || (&& p < |s| && s[p] != '"' as int && s[p] != '\'' as int && s[p] != '}' as int && !OpensBlank(s, p)
        && Name(cfg, s, p, q, t))
  }

  // ---- numbers ----

  function WithSign(m: int, neg: bool): int { if neg then -m else m }

  function FlipSign(d: Double): Double {
    if d < 0x8000_0000_0000_0000 then d + 0x8000_0000_0000_0000 else d - 0x8000_0000_0000_0000
  }

  predicate FitsInt64(m: int) { -0x8000_0000_0000_0000 <= m <= 0x7FFF_FFFF_FFFF_FFFF }

  /** Infinity, which has all exponent bits and no other, and a NaN; a minus sets the sign bit. */
  predicate NonFinite(s: bytes, i: nat, q: nat, neg: bool, v: Json) {
    || (Word(s, i, q, "Infinity") && v == Float(if neg then 0xFFF0_0000_0000_0000 else 0x7FF0_0000_0000_0000))
    || (Word(s, i, q, "NaN") && v == Float(if neg then 0xFFF8_0000_0000_0000 else 0x7FF8_0000_0000_0000))
  }

  predicate HexDigits(t: bytes) { forall k :: 0 <= k < |t| ==> IsHexDigit(t[k]) }

  function HexNumber(t: bytes): nat
    requires HexDigits(t)
  {
    if |t| == 0 then 0 else 16 * HexNumber(t[..|t| - 1]) + HexDigitOf(t[|t| - 1])
  }

  function WithoutZeros(t: bytes): bytes {
    if |t| > 0 && t[0] == '0' as int then WithoutZeros(t[1..]) else t
  }

  /** An integer if its value with the sign is an int64, else the double of the bare digits with the sign put on it. */
  ghost predicate HexValueIs(lib: FloatLib, t: bytes, neg: bool, v: Json)
    requires HexDigits(t)
  {
    var m := WithSign(HexNumber(t), neg);
    if FitsInt64(m) then v == Int(m)
    else
      var r := lib.fromHex(WithoutZeros(t));
      r.InRange? && v == Float(if neg then FlipSign(r.d) else r.d)
  }

  ghost predicate Hexadecimal(lib: FloatLib, s: bytes, i: nat, q: nat, neg: bool, v: Json) {
    && i + 2 < q <= |s| && s[i] == '0' as int && (s[i + 1] == 'x' as int || s[i + 1] == 'X' as int)
    && HexDigits(s[i + 2..q]) && HexValueIs(lib, s[i + 2..q], neg, v)
  }

  /**
   Integer digits up to a, a point and fraction digits up to b, an exponent up to q; digits on one side are enough.
   */
  predicate DecimalSplit(s: bytes, i: nat, a: nat, b: nat, q: nat) {
    && i <= a <= b <= q <= |s| && Digits(s, i, a) && (a - i > 1 ==> s[i] != '0' as int)
    && (a == b || (s[a] == '.' as int && Digits(s, a + 1, b)))
    && (i < a || a + 1 < b)
    && Grammar.IsExpPart(s, b, q)
  }

  predicate InRangeIs(r: FloatParse, v: Json) { r.InRange? && v == Float(r.d) }

  /**
   A number without point and exponent is an integer if its value is an int64. The digits are counted in 32 bits, and
   beyond that only as many as the count says are read; below 2^32 digits those are all.
   */
  predicate DecimalValueIs(lib: FloatLib, s: bytes, i: nat, a: nat, q: nat, neg: bool, text: bytes, v: Json)
    requires i <= a <= |s| && Digits(s, i, a)
  {
    var digits := s[i..i + (a - i) % 4294967296];
    var m := WithSign(DecimalValue(digits), neg);
    if a == q && FitsInt64(m) then v == Int(m) else InRangeIs(lib.fromChars(text), v)
  }

  /** The conversion is given the token with a minus but without a plus. */
  predicate DecimalToken(lib: FloatLib, s: bytes, p: nat, i: nat, a: nat, b: nat, q: nat, neg: bool, v: Json)
    requires p <= i
  {
    DecimalSplit(s, i, a, b, q) && DecimalValueIs(lib, s, i, a, q, neg, s[if neg then p else i..q], v)
  }

  ghost predicate Decimal(lib: FloatLib, s: bytes, p: nat, i: nat, q: nat, neg: bool, v: Json)
    requires p <= i
  {
    exists a: nat, b: nat :: DecimalToken(lib, s, p, i, a, b, q, neg, v)
  }

  ghost predicate Unsigned(lib: FloatLib, s: bytes, p: nat, i: nat, q: nat, neg: bool, v: Json)
    requires p <= i
  {
    NonFinite(s, i, q, neg, v) || Hexadecimal(lib, s, i, q, neg, v) || Decimal(lib, s, p, i, q, neg, v)
  }

  ghost predicate Number5(lib: FloatLib, s: bytes, p: nat, q: nat, v: Json) {
    p < |s| &&
    if Sign(s[p]) then Unsigned(lib, s, p, p + 1, q, s[p] == '-' as int, v) else Unsigned(lib, s, p, p, q, false, v)
  }

  // ---- values ----

  predicate Literal5(s: bytes, p: nat, q: nat, v: Json) {
    (Word(s, p, q, "true") && v == Bool(true)) || (Word(s, p, q, "false") && v == Bool(false)) ||
    (Word(s, p, q, "null") && v == Null)
  }

  ghost predicate StringValue5(s: bytes, p: nat, q: nat, v: Json) {
    v.Str? && (String5Is(s, p, q, '"' as int, v.s) || String5Is(s, p, q, '\'' as int, v.s))
  }

  ghost predicate Scalar5(cfg: Config, s: bytes, p: nat, q: nat, v: Json) {
    Literal5(s, p, q, v) || StringValue5(s, p, q, v) || Number5(cfg.lib, s, p, q, v)
  }

  /**
   The members of an object from its pairs in the order of the text: a repeated name keeps its place, and its last
   value.
   */
  function Gathered(pairs: seq<Member>): seq<Member> {
    if |pairs| == 0 then []
    else
      var n := |pairs| - 1;
      Upsert(Gathered(pairs[..n]), pairs[n].key, pairs[n].value)
  }

  /** One container more inside `depth` others. */
  predicate Fits(cfg: Config, depth: nat) { cfg.maxDepth == 0 || depth < cfg.maxDepth }

  /** A value inside `depth` containers. Where keys are checked, no name of an object is given twice. */
  ghost predicate Value5(cfg: Config, depth: nat, s: bytes, p: nat, q: nat, v: Json)
    requires p <= q <= |s|
    decreases q - p, 2
  {
    || Scalar5(cfg, s, p, q, v)
    || (p + 2 <= q && s[p] == '[' as int && s[q - 1] == ']' as int && v.Arr? && Fits(cfg, depth)
        && if |v.items| == 0 then Blank5(s, p + 1, q - 1) else Elements5(cfg, depth + 1, s, p + 1, q - 1, v.items))
    || (p + 2 <= q && s[p] == '{' as int && s[q - 1] == '}' as int && v.Obj? && Fits(cfg, depth)
        && exists pairs: seq<Member> :: v.members == Gathered(pairs)
             && (cfg.strictKeys ==> DistinctKeys(pairs))
             && if |pairs| == 0 then Blank5(s, p + 1, q - 1) else Members5(cfg, depth + 1, s, p + 1, q - 1, pairs))
  }

  ghost predicate Element5(cfg: Config, depth: nat, s: bytes, p: nat, q: nat, v: Json)
    requires p <= q <= |s|
    decreases q - p, 3
  {
    exists a: nat, b: nat :: p <= a <= b <= q && Blank5(s, p, a) && Blank5(s, b, q) && Value5(cfg, depth, s, a, b, v)
  }

  /** Elements with commas between them, and perhaps one behind the last. */
  ghost predicate Elements5(cfg: Config, depth: nat, s: bytes, p: nat, q: nat, vs: seq<Json>)
    requires p <= q <= |s|
    decreases q - p, 4
  {
    |vs| > 0 &&
    if |vs| == 1 then
      || Element5(cfg, depth, s, p, q, vs[0])
      || exists m: nat ::
           p <= m < q && s[m] == ',' as int && Element5(cfg, depth, s, p, m, vs[0]) && Blank5(s, m + 1, q)
    else exists m: nat ::
      && p <= m < q && s[m] == ',' as int
      && Element5(cfg, depth, s, p, m, vs[0]) && Elements5(cfg, depth, s, m + 1, q, vs[1..])
  }

  /** A name at a, up to b, and its value behind the colon at c. */
  ghost predicate Named5(cfg: Config, depth: nat, s: bytes, p: nat, a: nat, b: nat, c: nat, q: nat, m: Member)
    requires p <= q <= |s|
    decreases q - p, 3
  {
    && p <= a < b <= c < q && Blank5(s, p, a) && Key5(cfg, s, a, b, m.key) && Blank5(s, b, c) && s[c] == ':' as int
    && Element5(cfg, depth, s, c + 1, q, m.value)
  }

  ghost predicate Member5(cfg: Config, depth: nat, s: bytes, p: nat, q: nat, m: Member)
    requires p <= q <= |s|
    decreases q - p, 4
  {
    exists a: nat, b: nat, c: nat :: Named5(cfg, depth, s, p, a, b, c, q, m)
  }

  ghost predicate Members5(cfg: Config, depth: nat, s: bytes, p: nat, q: nat, ms: seq<Member>)
    requires p <= q <= |s|
    decreases q - p, 5
  {
    |ms| > 0 &&
    if |ms| == 1 then
      || Member5(cfg, depth, s, p, q, ms[0])
      || exists m: nat :: p <= m < q && s[m] == ',' as int && Member5(cfg, depth, s, p, m, ms[0]) && Blank5(s, m + 1, q)
    else exists m: nat ::
      && p <= m < q && s[m] == ',' as int
      && Member5(cfg, depth, s, p, m, ms[0]) && Members5(cfg, depth, s, m + 1, q, ms[1..])
  }

  /** The text is JSON5 and stands for v. */
  ghost predicate Text5(cfg: Config, s: bytes, v: Json) { Element5(cfg, 0, s, 0, |s|, v) }
}
