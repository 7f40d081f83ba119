/** The JSON5 number parser against the number tokens of Json5Grammar. */
module Json5Numbers {
  import opened Core
  import opened Grammar
  import opened Numbers
  import opened Json5Lexer
  import opened Lexis
  import opened StringMeaning
  import opened Json5Grammar

  // ---- runs of digits ----

  lemma DigitsAre(s: bytes, i: nat, j: nat)
    requires j <= |s|
    ensures DigitsIn(s, i, j) <==> Digits(s, i, j)
  {
  }

  /** No digit, hex digit, point or hex mark follows. */
  predicate NumberStops(s: bytes, q: nat) {
    q >= |s| || (!IsHexDigit(s[q]) && s[q] != '.' as int && s[q] != 'x' as int && s[q] != 'X' as int)
  }

  lemma ExpSound(s: bytes, k: nat, sc: NumScan)
    requires k <= |s| && ScanExp(s, k, |s|, sc).err.NumOk?
    ensures var r := ScanExp(s, k, |s|, sc);
      r.next <= |s| && IsExpPart(s, k, r.next) && r.isFloat == (sc.isFloat || k < r.next)
  {
    if k < |s| && IsExpMark(s[k]) {
      var m := if k + 1 < |s| && IsSign(s[k + 1]) then k + 2 else k + 1;
      if m <= |s| { DigitRunDigits(s, m, |s|); }
    }
  }

  lemma ExpRead(s: bytes, k: nat, q: nat, sc: NumScan)
    requires k <= q <= |s| && IsExpPart(s, k, q) && NumberStops(s, q)
    ensures ScanExp(s, k, |s|, sc) == sc.(err := NumOk, next := q, isFloat := sc.isFloat || k < q)
  {
    ScanExpComplete(s, k, q, |s|, sc);
  }

  // ---- decimal numbers ----

  lemma DotSound(s: bytes, i: nat, neg: bool)
    requires i < |s| && s[i] == DOT && ScanDot5(s, i, |s|, neg).err.NumOk?
    ensures var r := ScanDot5(s, i, |s|, neg);
      r.isFloat && i < r.next && DecimalSplit(s, i, i, DigitRun(s, i + 1, |s|), r.next)
  {
    hide ScanExp;
    var b := DigitRun(s, i + 1, |s|);
    DigitRunDigits(s, i + 1, |s|);
    ExpSound(s, b, NumScan(NumOk, b, i + 1, b - (i + 1), neg, true));
  }

  lemma DigitsSound(s: bytes, i: nat, neg: bool) returns (b: nat)
    requires i < |s| && s[i] != DOT && ScanDigits5(s, i, |s|, neg).err.NumOk?
    ensures var r := ScanDigits5(s, i, |s|, neg); var a := DigitRun(s, i, |s|);
      i < a && DecimalSplit(s, i, a, b, r.next) && r.intStart == i && r.intDigits == a - i && r.isFloat == (a < r.next)
  {
    hide ScanExp;
    var a := DigitRun(s, i, |s|);
    DigitRunDigits(s, i, |s|);
    var sc := NumScan(NumOk, a, i, a - i, neg, false);
    if a < |s| && s[a] == DOT {
      b := DigitRun(s, a + 1, |s|);
      DigitRunDigits(s, a + 1, |s|);
      ExpSound(s, b, sc.(isFloat := true));
    } else {
      b := a;
      ExpSound(s, a, sc);
    }
  }

  /** What the scanner makes of a decimal token. */
  lemma DecimalScanned(s: bytes, i: nat, a: nat, b: nat, q: nat, neg: bool)
    requires DecimalSplit(s, i, a, b, q) && NumberStops(s, q)
    ensures ScanDecimal5(s, i, |s|, neg) ==
      if i < a then NumScan(NumOk, q, i, a - i, neg, a < q) else NumScan(NumOk, q, i + 1, b - (i + 1), neg, true)
    ensures !Json5Lexer.HexPrefix(s, i, |s|) && (i < a ==> IsDigit(s[i])) && (i == a ==> s[i] == DOT)
  {
    hide ScanExp;
    if i < a {
      DigitRunIs(s, i, a, |s|);
      var sc := NumScan(NumOk, a, i, a - i, neg, false);
      if a < b {
        DigitRunIs(s, a + 1, b, |s|);
        ExpRead(s, b, q, sc.(isFloat := true));
      } else {
        ExpRead(s, a, q, sc);
      }
    } else {
      DigitRunIs(s, i + 1, b, |s|);
      ExpRead(s, b, q, NumScan(NumOk, b, i + 1, b - (i + 1), neg, true));
    }
  }

  // ---- the value of an integer token ----

  /** The branch the classifier takes is decided by the value of the digits it counts. */
  lemma IntegerMeans(s: bytes, sc: NumScan)
    requires sc.intStart + sc.intDigits <= |s| && Digits(s, sc.intStart, sc.intStart + sc.intDigits) && !sc.isFloat
    requires sc.intDigits > 1 ==> s[sc.intStart] != 0x30
    ensures var t := s[sc.intStart..sc.intStart + sc.intDigits % 4294967296];
      var m := WithSign(DecimalValue(t), sc.negative);
      && (TakesInteger(s, sc) <==> FitsInt64(m)) && AllDigits(t) && Signed(Dec(t), sc.negative) == m
  {
    var t := s[sc.intStart..sc.intStart + sc.intDigits % 4294967296];
    DigitsAre(s, sc.intStart, sc.intStart + sc.intDigits);
    DecimalMeans(t);
    if TakesInteger(s, sc) {
      NarrowFits(s, sc);
    } else if |t| == 19 {
      LimitValues();
      LexIsNumeric(t, if sc.negative then MIN_ABS_DIGITS else MAX_DIGITS);
    } else {
      TooManyDigits(t);
    }
  }

  /** What the classifier says of a decimal token. */
  lemma DecimalClassified(lib: FloatLib, s: bytes, p: nat, i: nat, a: nat, b: nat, q: nat, neg: bool, v: Json)
    requires DecimalSplit(s, i, a, b, q) && (i == p || i == p + 1) && (neg ==> i == p + 1)
    requires var r := NumScan5(if i < a then NumScan(NumOk, q, i, a - i, neg, a < q)
                               else NumScan(NumOk, q, i + 1, b - (i + 1), neg, true), i == p + 1 && !neg, false);
      DigitsIn(s, r.sc.intStart, r.sc.intStart + r.sc.intDigits)
    ensures var r := NumScan5(if i < a then NumScan(NumOk, q, i, a - i, neg, a < q)
                              else NumScan(NumOk, q, i + 1, b - (i + 1), neg, true), i == p + 1 && !neg, false);
      DecimalNumber5(lib, s, p, r) == Ok(v, q) <==> DecimalValueIs(lib, s, i, a, q, neg, s[if neg then p else i..q], v)
  {
    if i < a && a == q { IntegerMeans(s, NumScan(NumOk, q, i, a - i, neg, false)); }
  }

  // ---- hexadecimal numbers ----

  lemma {:induction false} HexMeansNumber(t: bytes)
    ensures HexIn(t, 0, |t|) <==> HexDigits(t)
    ensures HexDigits(t) ==> HexNum(t) == HexNumber(t)
    decreases |t|
  {
    hide HexValue, IsHexDigit, HexDigit;
    forall c: byte ensures IsHexDigit(c) <==> HexValue(c) >= 0 { HexMeans(c, HexValue(c)); }
    if |t| > 0 {
      HexMeansNumber(t[..|t| - 1]);
      if HexDigits(t) { HexMeans(t[|t| - 1], HexDigitOf(t[|t| - 1])); }
    }
  }

  lemma {:induction false} ZerosRemoved(t: bytes)
    ensures t[ZeroRun(t)..] == WithoutZeros(t)
  {
    if |t| > 0 && t[0] == 0x30 { ZerosRemoved(t[1..]); }
  }

  /** The hex path on the digits t. */
  lemma HexClassified(lib: FloatLib, s: bytes, p: nat, i: nat, q: nat, neg: bool, v: Json)
    requires i <= q <= |s| && HexIn(s, i, q) && HexDigits(s[i..q])
    ensures HexNumber5(lib, s, p, NumScan(NumOk, q, i, q - i, neg, false)) == Ok(v, q) <==>
      HexValueIs(lib, s[i..q], neg, v)
  {
    var t := s[i..q];
    HexMeansNumber(t);
    ZerosRemoved(t);
    hide HexNum, HexNumber, ZeroRun, WithoutZeros;
  }

  lemma {:induction false} HexRunIs(s: bytes, p: nat, q: nat)
    requires p <= q <= |s| && HexIn(s, p, q) && (q < |s| ==> HexValue(s[q]) < 0)
    ensures HexRun(s, p, |s|) == q
    decreases q - p
  {
    hide HexValue;
    if p < q { HexRunIs(s, p + 1, q); }
  }

  lemma HexSlice(s: bytes, i: nat, q: nat)
    requires i <= q <= |s|
    ensures HexIn(s, i, q) <==> HexDigits(s[i..q])
  {
    hide HexValue, IsHexDigit;
    forall c: byte ensures IsHexDigit(c) <==> HexValue(c) >= 0 { HexMeans(c, HexValue(c)); }
    if HexDigits(s[i..q]) {
      forall k | i <= k < q ensures HexValue(s[k]) >= 0 { assert s[i..q][k - i] == s[k]; }
    }
  }

  // ---- number tokens ----

  lemma WordsAre(s: bytes, i: nat, q: nat)
    ensures Word(s, i, q, "Infinity") <==> LiteralAt(s, i, |s|, INFINITY_TEXT) && q == i + 8
    ensures Word(s, i, q, "NaN") <==> LiteralAt(s, i, |s|, NAN_TEXT) && q == i + 3
    ensures LiteralAt(s, i, |s|, INFINITY_TEXT) ==> i < |s| && s[i] == 0x49
    ensures LiteralAt(s, i, |s|, NAN_TEXT) ==> i < |s| && s[i] == 0x4E
  {
    if LiteralAt(s, i, |s|, INFINITY_TEXT) { assert s[i + 0] == INFINITY_TEXT[0]; }
    if LiteralAt(s, i, |s|, NAN_TEXT) { assert s[i + 0] == NAN_TEXT[0]; }
    assert forall k :: 0 <= k < 8 ==> "Infinity"[k] as int == INFINITY_TEXT[k];
    assert forall k :: 0 <= k < 3 ==> "NaN"[k] as int == NAN_TEXT[k];
  }

  /** The position behind the sign, and whether it is a minus. */
  function Body(s: bytes, p: nat): nat
    requires p < |s|
  {
    if Sign(s[p]) then p + 1 else p
  }

  predicate Minus(s: bytes, p: nat)
    requires p < |s|
  {
    s[p] == '-' as int
  }

  lemma NumberIs(lib: FloatLib, s: bytes, p: nat, q: nat, v: Json)
    requires p < |s|
    ensures Number5(lib, s, p, q, v) <==> Unsigned(lib, s, p, Body(s, p), q, Minus(s, p), v)
  {
    hide Unsigned;
  }

  lemma NumberSound(lib: FloatLib, s: bytes, p: nat)
    requires p < |s| && ParseNumber5(lib, s, p, |s|).Ok?
    ensures var r := ParseNumber5(lib, s, p, |s|); Number5(lib, s, p, r.next, r.value)
  {
    hide Scan5, LiteralAt, Word, DecimalNumber5, HexNumber5, Unsigned, Number5;
    var r := ParseNumber5(lib, s, p, |s|);
    var i, neg := Body(s, p), Minus(s, p);
    NumberIs(lib, s, p, r.next, r.value);
    WordsAre(s, i, r.next);
    if LiteralAt(s, i, |s|, INFINITY_TEXT) || LiteralAt(s, i, |s|, NAN_TEXT) {
      UnsignedIs(lib, s, p, i, r.next, neg, r.value);
    } else {
      ScannedSound(lib, s, p);
    }
  }

  lemma UnsignedIs(lib: FloatLib, s: bytes, p: nat, i: nat, q: nat, neg: bool, v: Json)
    requires p <= i
    ensures Unsigned(lib, s, p, i, q, neg, v) <==>
      NonFinite(s, i, q, neg, v) || Hexadecimal(lib, s, i, q, neg, v) || Decimal(lib, s, p, i, q, neg, v)
  {
    hide NonFinite, Hexadecimal, Decimal;
  }

  /** Behind the words: what the scan found, by its kind. */
  lemma ScannedIs(lib: FloatLib, s: bytes, p: nat)
    requires p < |s|
    requires !LiteralAt(s, Body(s, p), |s|, INFINITY_TEXT) && !LiteralAt(s, Body(s, p), |s|, NAN_TEXT)
    ensures var i, neg := Body(s, p), Minus(s, p); var r := ParseNumber5(lib, s, p, |s|);
      if Json5Lexer.HexPrefix(s, i, |s|) then
        var j := HexRun(s, i + 2, |s|);
        i + 2 <= j <= |s| && HexIn(s, i + 2, j) && if j == i + 2 then r.Fail?
        else r == HexNumber5(lib, s, p, NumScan(NumOk, j, i + 2, j - (i + 2), neg, false))
      else
        var sc := ScanDecimal5(s, i, |s|, neg);
        if !sc.err.NumOk? then r.Fail?
        else
          && DigitsIn(s, sc.intStart, sc.intStart + sc.intDigits)
          && r == DecimalNumber5(lib, s, p, NumScan5(sc, Body(s, p) == p + 1 && !neg, false))
  {
    hide LiteralAt, DecimalNumber5, HexNumber5, ScanDecimal5;
    var i := Body(s, p);
    if Json5Lexer.HexPrefix(s, i, |s|) { HexRunDigits(s, i + 2, |s|); }
    if Scan5(s, p, |s|).sc.err.NumOk? { Scan5Digits(s, p, |s|); }
  }

  lemma ScannedSound(lib: FloatLib, s: bytes, p: nat)
    requires p < |s| && ParseNumber5(lib, s, p, |s|).Ok?
    requires !LiteralAt(s, Body(s, p), |s|, INFINITY_TEXT) && !LiteralAt(s, Body(s, p), |s|, NAN_TEXT)
    ensures var r := ParseNumber5(lib, s, p, |s|); Unsigned(lib, s, p, Body(s, p), r.next, Minus(s, p), r.value)
  {
    hide LiteralAt, ParseNumber5, Unsigned, Hexadecimal, Decimal, ScanDot5, ScanDigits5, HexRun, HexIn, DigitsIn,
      DecimalNumber5, HexNumber5;
    var i := Body(s, p);
    var r := ParseNumber5(lib, s, p, |s|);
    UnsignedIs(lib, s, p, i, r.next, Minus(s, p), r.value);
    ScannedIs(lib, s, p);
    NothingScanned(s, i, Minus(s, p));
    if Json5Lexer.HexPrefix(s, i, |s|) {
      HexSound(lib, s, p, i, HexRun(s, i + 2, |s|), Minus(s, p), r.value);
    } else if i < |s| && s[i] == DOT {
      DotNumberSound(lib, s, p);
    } else if i < |s| {
      DigitsNumberSound(lib, s, p);
    }
  }

  lemma HexSound(lib: FloatLib, s: bytes, p: nat, i: nat, j: nat, neg: bool, v: Json)
    requires Json5Lexer.HexPrefix(s, i, |s|) && i + 2 < j <= |s| && HexIn(s, i + 2, j)
    requires HexNumber5(lib, s, p, NumScan(NumOk, j, i + 2, j - (i + 2), neg, false)) == Ok(v, j)
    ensures Hexadecimal(lib, s, i, j, neg, v)
  {
    hide HexNumber5, HexValueIs, HexDigits, HexIn;
    HexSlice(s, i + 2, j);
    HexClassified(lib, s, p, i + 2, j, neg, v);
  }

  lemma DotNumberSound(lib: FloatLib, s: bytes, p: nat)
    requires p < |s| && Body(s, p) < |s| && s[Body(s, p)] == DOT
    requires var i, neg := Body(s, p), Minus(s, p); var sc := ScanDot5(s, i, |s|, neg);
      && sc.err.NumOk? && DigitsIn(s, sc.intStart, sc.intStart + sc.intDigits)
      && DecimalNumber5(lib, s, p, NumScan5(sc, i == p + 1 && !neg, false)).Ok?
    ensures var i, neg := Body(s, p), Minus(s, p); var sc := ScanDot5(s, i, |s|, neg);
      Decimal(lib, s, p, i, sc.next, neg, DecimalNumber5(lib, s, p, NumScan5(sc, i == p + 1 && !neg, false)).value)
  {
    hide DecimalNumber5, DecimalSplit, DecimalValueIs, ScanDot5, DigitsIn;
    var i, neg := Body(s, p), Minus(s, p);
    var sc := ScanDot5(s, i, |s|, neg);
    DotSound(s, i, neg);
    DotShape(s, i, neg);
    var v := DecimalNumber5(lib, s, p, NumScan5(sc, i == p + 1 && !neg, false)).value;
    DecimalClassified(lib, s, p, i, i, DigitRun(s, i + 1, |s|), sc.next, neg, v);
    assert DecimalToken(lib, s, p, i, i, DigitRun(s, i + 1, |s|), sc.next, neg, v);
  }

  lemma DigitsNumberSound(lib: FloatLib, s: bytes, p: nat)
    requires p < |s| && Body(s, p) < |s| && s[Body(s, p)] != DOT
    requires var i, neg := Body(s, p), Minus(s, p); var sc := ScanDigits5(s, i, |s|, neg);
      && sc.err.NumOk? && DigitsIn(s, sc.intStart, sc.intStart + sc.intDigits)
      && DecimalNumber5(lib, s, p, NumScan5(sc, i == p + 1 && !neg, false)).Ok?
    ensures var i, neg := Body(s, p), Minus(s, p); var sc := ScanDigits5(s, i, |s|, neg);
      Decimal(lib, s, p, i, sc.next, neg, DecimalNumber5(lib, s, p, NumScan5(sc, i == p + 1 && !neg, false)).value)
  {
    hide DecimalNumber5, DecimalSplit, DecimalValueIs, ScanDigits5, DigitsIn;
    var i, neg := Body(s, p), Minus(s, p);
    var sc := ScanDigits5(s, i, |s|, neg);
    var b := DigitsSound(s, i, neg);
    DigitsShape(s, i, neg);
    var v := DecimalNumber5(lib, s, p, NumScan5(sc, i == p + 1 && !neg, false)).value;
    DecimalClassified(lib, s, p, i, DigitRun(s, i, |s|), b, sc.next, neg, v);
    assert DecimalToken(lib, s, p, i, DigitRun(s, i, |s|), b, sc.next, neg, v);
  }

  lemma NothingScanned(s: bytes, i: nat, neg: bool)
    ensures i >= |s| ==> !ScanDigits5(s, i, |s|, neg).err.NumOk?
  {
  }

  lemma DotShape(s: bytes, i: nat, neg: bool)
    requires i < |s| && s[i] == DOT && ScanDot5(s, i, |s|, neg).err.NumOk?
    ensures var r := ScanDot5(s, i, |s|, neg);
      r == NumScan(NumOk, r.next, i + 1, DigitRun(s, i + 1, |s|) - (i + 1), neg, true)
  {
  }

  lemma DigitsShape(s: bytes, i: nat, neg: bool)
    requires i < |s| && s[i] != DOT && ScanDigits5(s, i, |s|, neg).err.NumOk?
    ensures var r := ScanDigits5(s, i, |s|, neg);
      r == NumScan(NumOk, r.next, i, DigitRun(s, i, |s|) - i, neg, r.isFloat)
  {
  }

  lemma NumberRead(lib: FloatLib, s: bytes, p: nat, q: nat, v: Json)
    requires Number5(lib, s, p, q, v) && NumberStops(s, q)
    ensures ParseNumber5(lib, s, p, |s|) == Ok(v, q)
  {
    hide Scan5, LiteralAt, Word, DecimalNumber5, HexNumber5, Unsigned, Number5, Hexadecimal, Decimal;
    NumberStarts(lib, s, p, q, v);
    NumberIs(lib, s, p, q, v);
    var i, neg := Body(s, p), Minus(s, p);
    UnsignedIs(lib, s, p, i, q, neg, v);
    WordsAre(s, i, q);
    if Hexadecimal(lib, s, i, q, neg, v) {
      HexRead(lib, s, p, q, v);
    } else if Decimal(lib, s, p, i, q, neg, v) {
      DecimalRead(lib, s, p, q, v);
    }
  }

  lemma HexRead(lib: FloatLib, s: bytes, p: nat, q: nat, v: Json)
    requires p < |s| && Hexadecimal(lib, s, Body(s, p), q, Minus(s, p), v) && NumberStops(s, q)
    ensures ParseNumber5(lib, s, p, |s|) == Ok(v, q)
  {
    hide LiteralAt, DecimalNumber5, HexNumber5, HexValueIs, ScanDecimal5, HexRun, HexDigits, HexValue, IsHexDigit;
    var i, neg := Body(s, p), Minus(s, p);
    WordsAre(s, i, q);
    HexSlice(s, i + 2, q);
    if q < |s| { HexMeans(s[q], HexValue(s[q])); }
    HexRunIs(s, i + 2, q);
    HexClassified(lib, s, p, i + 2, q, neg, v);
  }

  lemma DecimalRead(lib: FloatLib, s: bytes, p: nat, q: nat, v: Json)
    requires p < |s| && Decimal(lib, s, p, Body(s, p), q, Minus(s, p), v) && NumberStops(s, q)
    ensures ParseNumber5(lib, s, p, |s|) == Ok(v, q)
  {
    hide LiteralAt, DecimalNumber5, HexNumber5, ScanDecimal5, HexRun, DecimalSplit, DecimalValueIs;
    var i, neg := Body(s, p), Minus(s, p);
    var a: nat, b: nat :| DecimalToken(lib, s, p, i, a, b, q, neg, v);
    DecimalScanned(s, i, a, b, q, neg);
    WordsAre(s, i, q);
    SplitShape(s, i, a, b, q);
    Scan5Digits(s, p, |s|);
    DecimalClassified(lib, s, p, i, a, b, q, neg, v);
  }

  lemma SplitShape(s: bytes, i: nat, a: nat, b: nat, q: nat)
    requires DecimalSplit(s, i, a, b, q)
    ensures i <= a <= b <= q <= |s| && i < q
  {
  }

  /** A number begins with a sign, a digit, a point or one of two letters. */
  lemma NumberStarts(lib: FloatLib, s: bytes, p: nat, q: nat, v: Json)
    requires Number5(lib, s, p, q, v)
    ensures p < q <= |s|
    ensures var c := s[p]; Sign(c) || Digit(c) || c == '.' as int || c == 'I' as int || c == 'N' as int
  {
    hide DecimalValueIs, HexValueIs;
    WordsAre(s, p, q);
    WordsAre(s, p + 1, q);
  }
}
