/**
 The JSON5 lexical layer as functions of the text: trivia, number spellings, identifier keys.
 Every read is bounded by the logical end e.
 */
module Json5Lexer {
  import opened Core
  import opened Grammar
  import opened Utf8
  import opened Strings
  import opened Numbers

  // ---- trivia ----

  predicate IsWs5(c: byte) { IsWs(c) || c == 0x0B || c == 0x0C }

  predicate IsWs5Unicode(cp: nat) {
    cp == 0xA0 || cp == 0x1680 || 0x2000 <= cp <= 0x200A || cp == 0x2028 || cp == 0x2029 ||
    cp == 0x202F || cp == 0x205F || cp == 0x3000 || cp == 0xFEFF
  }

  /** Length of the multi-byte white space at p, or 0. */
  function WideWs(s: bytes, p: nat, e: nat): (n: nat)
    requires e <= |s|
    ensures n > 0 ==> p < p + n <= e
  {
    if p < e && s[p] >= 0x80 then
      match DecodeUtf8(s, p, e)
      case Good(cp, len) => if IsWs5Unicode(cp) then len else 0
      case Bad => 0
    else 0
  }

  predicate LineEndsAt(s: bytes, p: nat, e: nat)
    requires e <= |s|
  {
    p >= e || s[p] == LF || s[p] == CR || IsLineSeparator(s, p, e)
  }

  /** Where a line comment whose body starts at p ends. */
  function LineEnd(s: bytes, p: nat, e: nat): (q: nat)
    requires e <= |s|
    ensures q >= p && (p <= e ==> q <= e)
    decreases e - p
  {
    if LineEndsAt(s, p, e) then p else LineEnd(s, p + 1, e)
  }

  /** Where a block comment scan that starts at p stops: at its closing star, or with q + 1 >= e when there is none. */
  function BlockEnd(s: bytes, p: nat, e: nat): (q: nat)
    requires e <= |s|
    ensures q >= p && (p <= e ==> q <= e)
    ensures q + 1 < e ==> s[q] == STAR && s[q + 1] == SLASH
    decreases e - p
  {
    if p + 1 < e && !(s[p] == STAR && s[p + 1] == SLASH) then BlockEnd(s, p + 1, e) else p
  }

  /** White space and comments from p; an unterminated block comment fails at the logical end. */
  function Trivia(s: bytes, p: nat, e: nat): (r: Parsed<()>)
    requires e <= |s|
    ensures r.Ok? ==> r.next >= p && (p <= e ==> r.next <= e)
    ensures r.Ok? && p >= e ==> r.next == p
    decreases e - p
  {
    if p < e && IsWs5(s[p]) then Trivia(s, p + 1, e)
    else if WideWs(s, p, e) > 0 then Trivia(s, p + WideWs(s, p, e), e)
    else if p + 1 < e && s[p] == SLASH && s[p + 1] == SLASH then Trivia(s, LineEnd(s, p + 2, e), e)
    else if p + 1 < e && s[p] == SLASH && s[p + 1] == STAR then
      var q := BlockEnd(s, p + 2, e);
      if q + 1 >= e then Fail(Positioned(UnexpectedEndOfInput, e)) else Trivia(s, q + 2, e)
    else Ok((), p)
  }

  /** RFC white space that ends before a byte which opens no trivia is skipped alike by both scanners. */
  lemma {:induction false} TriviaExtendsWs(s: bytes, p: nat)
    requires p <= |s|
    requires var c := At(s, SkipWs(s, p)); c < 0x80 && c != SLASH && c != 0x0B && c != 0x0C
    ensures Trivia(s, p, |s|) == Ok((), SkipWs(s, p))
    decreases |s| - p
  {
    if p < |s| && IsWs(s[p]) { TriviaExtendsWs(s, p + 1); }
  }

  // ---- numbers ----

  /** The scan result with the two JSON5 flags. */
  datatype NumScan5 = NumScan5(sc: NumScan, plus: bool, hex: bool)

  function HexRun(s: bytes, p: nat, e: nat): (q: nat)
    requires e <= |s|
    ensures q >= p && (p <= e ==> q <= e)
    decreases e - p
  {
    if p < e && HexValue(s[p]) >= 0 then HexRun(s, p + 1, e) else p
  }

  lemma {:induction false} HexRunDigits(s: bytes, p: nat, e: nat)
    requires p <= e <= |s|
    ensures HexIn(s, p, HexRun(s, p, e))
    decreases e - p
  {
    if p < e && HexValue(s[p]) >= 0 { HexRunDigits(s, p + 1, e); }
  }

  predicate HexPrefix(s: bytes, i: nat, e: nat)
    requires e <= |s|
  {
    i + 1 < e && s[i] == 0x30 && (s[i + 1] == 0x78 || s[i + 1] == 0x58)
  }

  /** `.5`: the dot is at i. */
  function ScanDot5(s: bytes, i: nat, e: nat, neg: bool): (r: NumScan)
    requires e <= |s|
    ensures r.next >= i && (i < e ==> r.next <= e)
    ensures r.err.NumOk? ==> i <= r.intStart < r.intStart + r.intDigits <= r.next <= e
    ensures r.negative == neg
  {
    if !DigitAt(s, i + 1, e) then NumScan(NoFracDigits, i + 1, i + 1, 0, neg, true)
    else
      var j := DigitRun(s, i + 1, e);
      ScanExp(s, j, e, NumScan(NumOk, j, i + 1, j - (i + 1), neg, true))
  }

  /** `5`, `5.`, `5.5`: digits first, the fraction digits optional. */
  function ScanDigits5(s: bytes, i: nat, e: nat, neg: bool): (r: NumScan)
    requires e <= |s|
    ensures r.next >= i && (i <= e ==> r.next <= e)
    ensures r.err.NumOk? ==> i <= r.intStart < r.intStart + r.intDigits <= r.next <= e
    ensures r.negative == neg
  {
    if !DigitAt(s, i, e) then NumScan(NoIntDigits, i, i, 0, neg, false)
    else
      var j := DigitRun(s, i, e);
      var sc := NumScan(NumOk, j, i, j - i, neg, false);
      if j - i > 1 && s[i] == 0x30 then sc.(err := LeadingZero)
      else if j < e && s[j] == DOT then ScanExp(s, DigitRun(s, j + 1, e), e, sc.(isFloat := true))
      else ScanExp(s, j, e, sc)
  }

  /** The decimal spellings, from the first byte after the sign. */
  function ScanDecimal5(s: bytes, i: nat, e: nat, neg: bool): (r: NumScan)
    requires e <= |s|
    ensures r.next >= i && (i <= e ==> r.next <= e)
    ensures r.err.NumOk? ==> i <= r.intStart < r.intStart + r.intDigits <= r.next <= e
    ensures r.negative == neg
  {
    if i < e && s[i] == DOT then ScanDot5(s, i, e, neg) else ScanDigits5(s, i, e, neg)
  }

  function Scan5(s: bytes, p: nat, e: nat): (r: NumScan5)
    requires e <= |s|
    ensures r.sc.next >= p && (p <= e ==> r.sc.next <= e)
    ensures r.sc.err.NumOk? ==> p <= r.sc.intStart < r.sc.intStart + r.sc.intDigits <= r.sc.next <= e
    ensures r.sc.err.NumOk? && r.hex ==> r.sc.next == r.sc.intStart + r.sc.intDigits
    ensures r.plus ==> p < e && s[p] == PLUS
    ensures r.plus && r.sc.err.NumOk? ==> p + 1 <= r.sc.intStart
  {
    var signed := p < e && IsSign(s[p]);
    var neg := signed && s[p] == MINUS;
    var i := if signed then p + 1 else p;
    var plus := signed && s[p] == PLUS;
    if HexPrefix(s, i, e) then
      var j := HexRun(s, i + 2, e);
      NumScan5(NumScan(if j == i + 2 then NoIntDigits else NumOk, j, i + 2, j - (i + 2), neg, false), plus, true)
    else NumScan5(ScanDecimal5(s, i, e, neg), plus, false)
  }

  /** The integer run of an accepted JSON5 scan holds hex digits or decimal digits, as flagged. */
  lemma Scan5Digits(s: bytes, p: nat, e: nat)
    requires e <= |s| && Scan5(s, p, e).sc.err.NumOk?
    ensures var r := Scan5(s, p, e);
      if r.hex then HexIn(s, r.sc.intStart, r.sc.next) else DigitsIn(s, r.sc.intStart, r.sc.intStart + r.sc.intDigits)
  {
    var i := if IsSign(s[p]) then p + 1 else p;
    if HexPrefix(s, i, e) {
      HexRunDigits(s, i + 2, e);
    } else {
      DigitRunDigits(s, if s[i] == DOT then i + 1 else i, e);
    }
  }

  const INFINITY_TEXT: bytes := [0x49, 0x6E, 0x66, 0x69, 0x6E, 0x69, 0x74, 0x79]
  const NAN_TEXT: bytes := [0x4E, 0x61, 0x4E]
  const SIGN_BIT: int := 0x8000_0000_0000_0000
  const INF_BITS: Double := 0x7FF0_0000_0000_0000
  const NAN_BITS: Double := 0x7FF8_0000_0000_0000

  function Negated(d: Double): Double { if d < SIGN_BIT then d + SIGN_BIT else d - SIGN_BIT }

  predicate LiteralAt(s: bytes, p: nat, e: nat, lit: bytes)
    requires e <= |s|
  {
    p + |lit| <= e && forall i {:trigger lit[i]} :: 0 <= i < |lit| ==> s[p + i] == lit[i]
  }

  lemma LiteralFirst(s: bytes, p: nat, e: nat, lit: bytes)
    requires e <= |s| && |lit| > 0
    ensures LiteralAt(s, p, e, lit) ==> s[p] == lit[0]
  {
  }

  function SignedDouble(d: Double, neg: bool): Double { if neg then Negated(d) else d }

  function NumErrorCode(e: NumError): Code
    requires !e.NumOk?
  {
    match e
    case NoIntDigits => NumberNoIntDigits
    case LeadingZero => NumberLeadingZero
    case NoFracDigits => NumberNoFracDigits
    case NoExpDigits => NumberNoExpDigits
  }

  /** Leading zeros of a hex run. */
  function ZeroRun(t: bytes): (k: nat)
    ensures k <= |t| && (k < |t| ==> t[k] != 0x30) && forall i :: 0 <= i < k ==> t[i] == 0x30
  {
    if |t| > 0 && t[0] == 0x30 then ZeroRun(t[1..]) + 1 else 0
  }

  function HexNumber5(lib: FloatLib, s: bytes, p: nat, sc: NumScan): (r: Parsed<Json>)
    requires sc.intStart + sc.intDigits == sc.next <= |s| && HexIn(s, sc.intStart, sc.next)
    ensures r.Ok? ==> r.next == sc.next
  {
    var t := s[sc.intStart..sc.next];
    assert HexIn(t, 0, |t|);
    match HexOutcome(t, sc.negative)
    case Some(n) => Ok(Int(n), sc.next)
    case None =>
      match lib.fromHex(t[ZeroRun(t)..])
      case OutOfRange => Fail(Positioned(NumberOutOfRange, p))
      case BadFormat => Fail(Positioned(NumberInvalidFormat, sc.next))
      case InRange(d) => Ok(Float(SignedDouble(d, sc.negative)), sc.next)
  }

  function DecimalNumber5(lib: FloatLib, s: bytes, p: nat, r: NumScan5): (v: Parsed<Json>)
    requires p <= r.sc.next <= |s| && r.sc.intStart + r.sc.intDigits <= |s|
    requires DigitsIn(s, r.sc.intStart, r.sc.intStart + r.sc.intDigits)
    requires r.plus ==> p + 1 <= r.sc.next
    ensures v.Ok? ==> v.next == r.sc.next
  {
    var sc := r.sc;
    if TakesInteger(s, sc) then
      NarrowFits(s, sc);
      Ok(Int(Signed(Dec(s[sc.intStart..sc.intStart + NarrowedDigits(sc)]), sc.negative)), sc.next)
    else
      FloatOutcome(lib.fromChars(s[(if r.plus then p + 1 else p)..sc.next]), p, sc.next)
  }

  /** parse_number_json5. */
  function ParseNumber5(lib: FloatLib, s: bytes, p: nat, e: nat): (r: Parsed<Json>)
    requires e <= |s|
    ensures r.Ok? ==> p < r.next <= e
  {
    var signed := p < e && IsSign(s[p]);
    var neg := signed && s[p] == MINUS;
    var i := if signed then p + 1 else p;
    if LiteralAt(s, i, e, INFINITY_TEXT) then Ok(Float(SignedDouble(INF_BITS, neg)), i + 8)
    else if LiteralAt(s, i, e, NAN_TEXT) then Ok(Float(SignedDouble(NAN_BITS, neg)), i + 3)
    else
      var r := Scan5(s, p, e);
      if !r.sc.err.NumOk? then Fail(Positioned(NumErrorCode(r.sc.err), r.sc.next))
      else
        Scan5Digits(s, p, e);
        if r.hex then HexNumber5(lib, s, p, r.sc)
        else DecimalNumber5(lib, s, p, r)
  }

  /** parse_number in RFC mode. */
  function ParseNumber(lib: FloatLib, s: bytes, p: nat, e: nat): (r: Parsed<Json>)
    requires e <= |s|
    ensures r.Ok? ==> p < r.next <= e
  {
    var sc := Scan(s, p, e);
    if !sc.err.NumOk? then Fail(Positioned(NumErrorCode(sc.err), sc.next))
    else
      ScanShape(s, p, e);
      Classify(lib, s, p, sc)
  }

  // ---- the number parsers, step by step ----

  method SkipHexDigits(s: bytes, p: nat, e: nat) returns (q: nat)
    requires e <= |s|
    ensures q == HexRun(s, p, e)
  {
    q := p;
    while q < e && HexValue(s[q]) >= 0
      invariant q >= p
      invariant HexRun(s, p, e) == HexRun(s, q, e)
    {
      q := q + 1;
    }
  }

  method ScanDecimalNumber5(s: bytes, i: nat, e: nat, neg: bool) returns (r: NumScan)
    requires e <= |s|
    ensures r == ScanDecimal5(s, i, e, neg)
  {
    var p := i;
    var sc: NumScan;
    if p < e && s[p] == DOT {
      p := p + 1;
      if p >= e || s[p] < 0x30 || s[p] > 0x39 {
        return NumScan(NoFracDigits, p, p, 0, neg, true);
      }
      p := SkipDigits(s, p, e);
      sc := NumScan(NumOk, p, i + 1, p - (i + 1), neg, true);
    } else {
      if p >= e || s[p] < 0x30 || s[p] > 0x39 {
        return NumScan(NoIntDigits, p, p, 0, neg, false);
      }
      p := SkipDigits(s, p, e);
      sc := NumScan(NumOk, p, i, p - i, neg, false);
      if sc.intDigits > 1 && s[i] == 0x30 {
        return sc.(err := LeadingZero);
      }
      if p < e && s[p] == DOT {
        p := SkipDigits(s, p + 1, e);
        sc := sc.(isFloat := true);
      }
    }
    r := ScanExponent(s, p, e, sc);
  }

  method ScanNumber5(s: bytes, start: nat, e: nat) returns (r: NumScan5)
    requires e <= |s|
    ensures r == Scan5(s, start, e)
  {
    var p := start;
    var negative, plus := false, false;
    if p < e && IsSign(s[p]) {
      negative := s[p] == MINUS;
      plus := s[p] == PLUS;
      p := p + 1;
    }
    if p + 1 < e && s[p] == 0x30 && (s[p + 1] == 0x78 || s[p + 1] == 0x58) {
      var q := SkipHexDigits(s, p + 2, e);
      var err := if q == p + 2 then NoIntDigits else NumOk;
      return NumScan5(NumScan(err, q, p + 2, q - (p + 2), negative, false), plus, true);
    }
    var sc := ScanDecimalNumber5(s, p, e, negative);
    return NumScan5(sc, plus, false);
  }

  lemma {:induction false} ZeroRunIs(t: bytes, k: nat)
    requires k <= |t| && (forall i :: 0 <= i < k ==> t[i] == 0x30) && (k < |t| ==> t[k] != 0x30)
    ensures ZeroRun(t) == k
  {
    if k > 0 {
      ZeroRunIs(t[1..], k - 1);
    }
  }

  /** parse_number_json5: non-finite literals, then hex, then decimal. */
  method ParseNumberJson5(lib: FloatLib, s: bytes, start: nat, e: nat) returns (r: Parsed<Json>)
    requires e <= |s|
    ensures r == ParseNumber5(lib, s, start, e)
  {
    var p := start;
    var negative := false;
    if p < e && IsSign(s[p]) {
      negative := s[p] == MINUS;
      p := p + 1;
    }
    if LiteralAt(s, p, e, INFINITY_TEXT) {
      return Ok(Float(SignedDouble(INF_BITS, negative)), p + 8);
    }
    if LiteralAt(s, p, e, NAN_TEXT) {
      return Ok(Float(SignedDouble(NAN_BITS, negative)), p + 3);
    }
    var n := ScanNumber5(s, start, e);
    var sc := n.sc;
    if !sc.err.NumOk? {
      return Fail(Positioned(NumErrorCode(sc.err), sc.next));
    }
    Scan5Digits(s, start, e);
    if n.hex {
      var t := s[sc.intStart..sc.next];
      assert HexIn(t, 0, |t|);
      var h, sig := ClassifyHex(t, sc.negative);
      ZeroRunIs(t, sig);
      if h.Some? {
        return Ok(Int(h.value), sc.next);
      }
      match lib.fromHex(t[sig..]) {
        case OutOfRange => return Fail(Positioned(NumberOutOfRange, start));
        case BadFormat => return Fail(Positioned(NumberInvalidFormat, sc.next));
        case InRange(d) => return Ok(Float(SignedDouble(d, sc.negative)), sc.next);
      }
    }
    r := ClassifyDecimal5(lib, s, start, n);
  }

  method ClassifyDecimal5(lib: FloatLib, s: bytes, p: nat, n: NumScan5) returns (r: Parsed<Json>)
    requires p <= n.sc.next <= |s| && n.sc.intStart + n.sc.intDigits <= |s|
    requires DigitsIn(s, n.sc.intStart, n.sc.intStart + n.sc.intDigits)
    requires n.plus ==> p + 1 <= n.sc.next
    ensures r == DecimalNumber5(lib, s, p, n)
  {
    var sc := n.sc;
    var digits := sc.intDigits % U32;
    if !sc.isFloat && (digits < 19 || (digits == 19 && Fits19(s[sc.intStart..sc.intStart + 19], sc.negative))) {
      NarrowFits(s, sc);
      var uval: int := ParseU64(s[sc.intStart..sc.intStart + digits]);
      var val: int64;
      if sc.negative && uval == -INT64_MIN {
        val := INT64_MIN;
      } else {
        val := if sc.negative then -uval else uval;
      }
      return Ok(Int(val), sc.next);
    }
    var from := if n.plus then p + 1 else p;
    return FloatOutcome(lib.fromChars(s[from..sc.next]), p, sc.next);
  }

  /** parse_number. */
  method ParseNumberRfc(lib: FloatLib, s: bytes, p: nat, e: nat) returns (r: Parsed<Json>)
    requires e <= |s|
    ensures r == ParseNumber(lib, s, p, e)
  {
    var sc := ScanNumber(s, p, e);
    if !sc.err.NumOk? {
      return Fail(Positioned(NumErrorCode(sc.err), sc.next));
    }
    ScanShape(s, p, e);
    r := ClassifyNumber(lib, s, p, sc);
  }

  // ---- number parsing looks at no byte before the cursor and at none behind the end ----

  /** s and t hold the same bytes from p up to e. */
  ghost predicate SameTo(s: bytes, t: bytes, p: nat, e: nat) {
    e <= |s| && e <= |t| && forall i :: p <= i < e ==> s[i] == t[i]
  }

  lemma {:induction false} RunsSame(s: bytes, t: bytes, p: nat, e: nat, q: nat)
    requires SameTo(s, t, p, e) && p <= q
    ensures DigitRun(s, q, e) == DigitRun(t, q, e)
    ensures HexRun(s, q, e) == HexRun(t, q, e)
    decreases e - q
  {
    if q < e { RunsSame(s, t, p, e, q + 1); }
  }

  lemma ExpSame(s: bytes, t: bytes, p: nat, e: nat, q: nat, sc: NumScan)
    requires SameTo(s, t, p, e) && p <= q
    ensures ScanExp(s, q, e, sc) == ScanExp(t, q, e, sc)
  {
    RunsSame(s, t, p, e, q + 1);
    RunsSame(s, t, p, e, q + 2);
  }

  lemma FracSame(s: bytes, t: bytes, p: nat, e: nat, q: nat, sc: NumScan)
    requires SameTo(s, t, p, e) && p <= q
    ensures ScanFrac(s, q, e, sc) == ScanFrac(t, q, e, sc)
  {
    RunsSame(s, t, p, e, q + 1);
    ExpSame(s, t, p, e, DigitRun(s, q + 1, e), sc.(isFloat := true));
    ExpSame(s, t, p, e, q, sc);
  }

  lemma IntSame(s: bytes, t: bytes, p: nat, e: nat, i: nat, neg: bool)
    requires SameTo(s, t, p, e) && p <= i
    ensures ScanInt(s, i, e, neg) == ScanInt(t, i, e, neg)
  {
    RunsSame(s, t, p, e, i);
    var j := DigitRun(s, i, e);
    FracSame(s, t, p, e, j, NumScan(NumOk, j, i, j - i, neg, false));
  }

  lemma ScanSame(s: bytes, t: bytes, p: nat, e: nat)
    requires SameTo(s, t, p, e)
    ensures Scan(s, p, e) == Scan(t, p, e)
  {
    var neg := p < e && s[p] == MINUS;
    IntSame(s, t, p, e, if neg then p + 1 else p, neg);
  }

  lemma Decimal5Same(s: bytes, t: bytes, p: nat, e: nat, i: nat, neg: bool)
    requires SameTo(s, t, p, e) && p <= i
    ensures ScanDecimal5(s, i, e, neg) == ScanDecimal5(t, i, e, neg)
  {
    if i < e && s[i] == DOT {
      DotSame(s, t, p, e, i, neg);
    } else {
      DigitsSame(s, t, p, e, i, neg);
    }
  }

  lemma DotSame(s: bytes, t: bytes, p: nat, e: nat, i: nat, neg: bool)
    requires SameTo(s, t, p, e) && p <= i
    ensures ScanDot5(s, i, e, neg) == ScanDot5(t, i, e, neg)
  {
    RunsSame(s, t, p, e, i + 1);
    var j := DigitRun(s, i + 1, e);
    ExpSame(s, t, p, e, j, NumScan(NumOk, j, i + 1, j - (i + 1), neg, true));
  }

  lemma DigitsSame(s: bytes, t: bytes, p: nat, e: nat, i: nat, neg: bool)
    requires SameTo(s, t, p, e) && p <= i
    ensures ScanDigits5(s, i, e, neg) == ScanDigits5(t, i, e, neg)
  {
    hide DigitRun, ScanExp;
    RunsSame(s, t, p, e, i);
    var j := DigitRun(s, i, e);
    RunsSame(s, t, p, e, j + 1);
    var sc := NumScan(NumOk, j, i, j - i, neg, false);
    if j < e && s[j] == DOT {
      ExpSame(s, t, p, e, DigitRun(s, j + 1, e), sc.(isFloat := true));
    } else {
      ExpSame(s, t, p, e, j, sc);
    }
  }

  lemma Scan5Same(s: bytes, t: bytes, p: nat, e: nat)
    requires SameTo(s, t, p, e)
    ensures Scan5(s, p, e) == Scan5(t, p, e)
  {
    hide HexRun, ScanDecimal5;
    var i := if p < e && IsSign(s[p]) then p + 1 else p;
    RunsSame(s, t, p, e, i + 2);
    Decimal5Same(s, t, p, e, i, p < e && s[p] == MINUS);
  }

  lemma SliceSame(s: bytes, t: bytes, p: nat, e: nat, i: nat, j: nat)
    requires SameTo(s, t, p, e) && p <= i <= j <= e
    ensures s[i..j] == t[i..j]
  {
  }

  lemma NumberSame(lib: FloatLib, s: bytes, t: bytes, p: nat, e: nat)
    requires SameTo(s, t, p, e)
    ensures ParseNumber(lib, s, p, e) == ParseNumber(lib, t, p, e)
  {
    ScanSame(s, t, p, e);
    var sc := Scan(s, p, e);
    if sc.err.NumOk? {
      ScanShape(s, p, e);
      SliceSame(s, t, p, e, p, sc.next);
      SliceSame(s, t, p, e, sc.intStart, sc.intStart + NarrowedDigits(sc));
      if NarrowedDigits(sc) == 19 { SliceSame(s, t, p, e, sc.intStart, sc.intStart + 19); }
    }
  }

  lemma Number5Same(lib: FloatLib, s: bytes, t: bytes, p: nat, e: nat)
    requires SameTo(s, t, p, e)
    ensures ParseNumber5(lib, s, p, e) == ParseNumber5(lib, t, p, e)
  {
    var i := if p < e && IsSign(s[p]) then p + 1 else p;
    assert LiteralAt(s, i, e, INFINITY_TEXT) == LiteralAt(t, i, e, INFINITY_TEXT);
    assert LiteralAt(s, i, e, NAN_TEXT) == LiteralAt(t, i, e, NAN_TEXT);
    Scan5Same(s, t, p, e);
    var r := Scan5(s, p, e);
    if r.sc.err.NumOk? {
      Scan5Digits(s, p, e);
      Scan5Digits(t, p, e);
      if r.hex {
        SliceSame(s, t, p, e, r.sc.intStart, r.sc.next);
      } else {
        Decimal5TokenSame(lib, s, t, p, e, r);
      }
    }
  }

  lemma Decimal5TokenSame(lib: FloatLib, s: bytes, t: bytes, p: nat, e: nat, r: NumScan5)
    requires SameTo(s, t, p, e) && p <= r.sc.intStart
    requires p <= r.sc.next <= e && r.sc.intStart + r.sc.intDigits <= e
    requires DigitsIn(s, r.sc.intStart, r.sc.intStart + r.sc.intDigits) &&
      DigitsIn(t, r.sc.intStart, r.sc.intStart + r.sc.intDigits)
    requires r.plus ==> p + 1 <= r.sc.next
    ensures DecimalNumber5(lib, s, p, r) == DecimalNumber5(lib, t, p, r)
  {
    var sc := r.sc;
    SliceSame(s, t, p, e, if r.plus then p + 1 else p, sc.next);
    SliceSame(s, t, p, e, sc.intStart, sc.intStart + NarrowedDigits(sc));
  }

  /**
   A number RFC mode accepts, not followed by the 'x' that would make it hexadecimal, is the same number under JSON5.
   */
  lemma Number5Extends(lib: FloatLib, s: bytes, p: nat, e: nat)
    requires e <= |s|
    requires ParseNumber(lib, s, p, e).Ok?
    requires var q := ParseNumber(lib, s, p, e).next; q < e ==> s[q] != 0x78 && s[q] != 0x58
    ensures ParseNumber5(lib, s, p, e) == ParseNumber(lib, s, p, e)
  {
    var sc := Scan(s, p, e);
    ScanShape(s, p, e);
    assert IsDigit(s[sc.intStart]);
    LiteralFirst(s, sc.intStart, e, INFINITY_TEXT);
    LiteralFirst(s, sc.intStart, e, NAN_TEXT);
    NoHexPrefix(s, p, e);
    assert Scan5(s, p, e) == NumScan5(sc, false, false);
  }

  lemma NoHexPrefix(s: bytes, p: nat, e: nat)
    requires e <= |s| && Scan(s, p, e).err.NumOk?
    requires var q := Scan(s, p, e).next; q < e ==> s[q] != 0x78 && s[q] != 0x58
    ensures var i := Scan(s, p, e).intStart;
      !HexPrefix(s, i, e) && ScanDecimal5(s, i, e, Scan(s, p, e).negative) == Scan(s, p, e)
  {
    var i := Scan(s, p, e).intStart;
    var j := DigitRun(s, i, e);
    ScanShape(s, p, e);
    assert j < e && s[j] != DOT && !IsExpMark(s[j]) ==> Scan(s, p, e).next == j;
  }

  // ---- identifier keys ----

  datatype IdentChar = NoIdent | IdentAt(cp: nat, next: nat, escaped: bool)

  /** One identifier escape, optionally a surrogate pair; nothing is consumed when it is malformed. */
  function IdentEscape(s: bytes, p: nat, e: nat): (r: IdentChar)
    requires e <= |s|
    ensures r.IdentAt? ==> p + 6 <= r.next <= e && r.cp <= 0x10FFFF && r.escaped
    ensures r.IdentAt? && r.cp > 0xFFFF ==> p + 12 <= r.next
  {
    if p + 1 >= e || s[p] != BACKSLASH || s[p + 1] != LOWER_U then NoIdent
    else
      var h := Hex4Bounded(s, p + 2, e);
      if h.Fail? then NoIdent
      else if IsHighSurrogate(h.value) then
        if p + 12 > e || s[p + 6] != BACKSLASH || s[p + 7] != LOWER_U then NoIdent
        else
          var l := Hex4Bounded(s, p + 8, e);
          if l.Fail? || !IsLowSurrogate(l.value) then NoIdent
          else IdentAt(JoinPair(h.value, l.value), p + 12, true)
      else if IsLowSurrogate(h.value) then NoIdent
      else IdentAt(h.value, p + 6, true)
  }

  function IdentUnit(s: bytes, p: nat, e: nat): (r: IdentChar)
    requires p < e <= |s|
    ensures r.IdentAt? ==> p < r.next <= e && r.cp <= 0x10FFFF
  {
    if s[p] == BACKSLASH then IdentEscape(s, p, e)
    else
      match DecodeUtf8(s, p, e)
      case Bad => NoIdent
      case Good(cp, len) => if cp > 0x10FFFF then NoIdent else IdentAt(cp, p + len, false)
  }

  /** The identifier name that starts at p, decoded, with the position after it (maximal munch). */
  function IdentRun(cfg: Config, s: bytes, p: nat, e: nat, first: bool, acc: bytes): (r: (bytes, nat))
    requires p <= e <= |s|
    ensures p <= r.1 <= e
    decreases e - p
  {
    if p >= e then (acc, p)
    else
      match IdentUnit(s, p, e)
      case NoIdent => (acc, p)
      case IdentAt(cp, n, escaped) =>
        if !(if first then cfg.identStart(cp) else cfg.identPart(cp)) then (acc, p)
        else IdentRun(cfg, s, n, e, false, acc + if escaped then EncodeUtf8(cp).value else s[p..n])
  }

  /** parse_identifier_key. */
  function ParseIdentKey(cfg: Config, s: bytes, p: nat, e: nat): (r: Parsed<bytes>)
    requires p <= e <= |s|
    ensures r.Ok? ==> p < r.next <= e
  {
    var (key, q) := IdentRun(cfg, s, p, e, true, []);
    if q == p then Fail(Positioned(ExpectedStringKey, p)) else Ok(key, q)
  }
}
