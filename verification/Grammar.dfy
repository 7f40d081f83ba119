/**
 Grammar primitives shared by the parser, the event reader and the validator:
 character classes, literals, and the RFC 8259 number scanner.
 */
module Grammar {
  import opened Core
  import opened Lexis

  predicate IsWs(c: byte) { c == 0x20 || c == 0x09 || c == 0x0A || c == 0x0D }

  /** First position at or after p that holds no RFC 8259 white space; NUL padding ends the run at |s|. */
  function SkipWs(s: bytes, p: nat): (q: nat)
    requires p <= |s|
    ensures p <= q <= |s| && !IsWs(At(s, q))
    ensures forall i :: p <= i < q ==> IsWs(s[i])
    decreases |s| - p
  {
    if p < |s| && IsWs(s[p]) then SkipWs(s, p + 1) else p
  }

  predicate IsDigit(c: byte) { 0x30 <= c <= 0x39 }
  predicate IsExpMark(c: byte) { c == 0x65 || c == 0x45 }
  predicate IsSign(c: byte) { c == PLUS || c == MINUS }

  /** The value of a hex digit, or -1. */
  function HexValue(c: byte): (v: int)
    ensures -1 <= v < 16
  {
    if 0x30 <= c <= 0x39 then c - 0x30
    else if 0x61 <= c <= 0x66 then c - 0x61 + 10
    else if 0x41 <= c <= 0x46 then c - 0x41 + 10
    else -1
  }

  /** The byte a short escape stands for, or 0. */
  function ShortEscape(c: byte): byte {
    if c == QUOTE then QUOTE
    else if c == BACKSLASH then BACKSLASH
    else if c == SLASH then SLASH
    else if c == 0x62 then 0x08
    else if c == 0x66 then 0x0C
    else if c == 0x6E then 0x0A
    else if c == 0x72 then 0x0D
    else if c == 0x74 then 0x09
    else 0
  }

  predicate IsHighSurrogate(cp: int) { 0xD800 <= cp <= 0xDBFF }
  predicate IsLowSurrogate(cp: int) { 0xDC00 <= cp <= 0xDFFF }

  const TRUE: bytes := [0x74, 0x72, 0x75, 0x65]
  const FALSE: bytes := [0x66, 0x61, 0x6C, 0x73, 0x65]
  const NULL: bytes := [0x6E, 0x75, 0x6C, 0x6C]

  /** Every byte of s[i..j] is a digit. */
  predicate DigitsIn(s: bytes, i: nat, j: nat)
    requires j <= |s|
  {
    forall k :: i <= k < j ==> IsDigit(s[k])
  }

  // ---- number scanner ----

  datatype NumError = NumOk | NoIntDigits | LeadingZero | NoFracDigits | NoExpDigits

  /** `next` is one past the token on success and the error anchor otherwise. */
  datatype NumScan = NumScan(err: NumError, next: nat, intStart: nat, intDigits: nat, negative: bool, isFloat: bool)

  /** First position at or after p, and below e, that holds no digit (e when there is none). */
  function DigitRun(s: bytes, p: nat, e: nat): (q: nat)
    requires e <= |s|
    ensures q >= p
    ensures p <= e ==> q <= e
    decreases e - p
  {
    if p < e && IsDigit(s[p]) then DigitRun(s, p + 1, e) else p
  }

  lemma {:induction false} DigitRunDigits(s: bytes, p: nat, e: nat)
    requires p <= e <= |s|
    ensures DigitsIn(s, p, DigitRun(s, p, e)) && !DigitAt(s, DigitRun(s, p, e), e)
    decreases e - p
  {
    if p < e && IsDigit(s[p]) { DigitRunDigits(s, p + 1, e); }
  }

  predicate DigitAt(s: bytes, p: nat, e: nat)
    requires e <= |s|
  {
    p < e && IsDigit(s[p])
  }

  function ScanExp(s: bytes, p: nat, e: nat, sc: NumScan): (r: NumScan)
    requires e <= |s|
    ensures r.next >= p && (p <= e ==> r.next <= e)
    ensures r.intStart == sc.intStart && r.intDigits == sc.intDigits && r.negative == sc.negative
  {
    if p < e && IsExpMark(s[p]) then
      var i := if p + 1 < e && IsSign(s[p + 1]) then p + 2 else p + 1;
      if DigitAt(s, i, e) then sc.(err := NumOk, next := DigitRun(s, i, e), isFloat := true)
      else sc.(err := NoExpDigits, next := i, isFloat := true)
    else sc.(err := NumOk, next := p)
  }

  function ScanFrac(s: bytes, p: nat, e: nat, sc: NumScan): (r: NumScan)
    requires e <= |s|
    ensures r.next >= p && (p <= e ==> r.next <= e)
    ensures r.intStart == sc.intStart && r.intDigits == sc.intDigits && r.negative == sc.negative
  {
    if p < e && s[p] == DOT then
      if DigitAt(s, p + 1, e) then ScanExp(s, DigitRun(s, p + 1, e), e, sc.(isFloat := true))
      else sc.(err := NoFracDigits, next := p + 1, isFloat := true)
    else ScanExp(s, p, e, sc)
  }

  /** The scan from the first byte after the optional minus. */
  function ScanInt(s: bytes, i: nat, e: nat, neg: bool): (r: NumScan)
    requires e <= |s|
    ensures r.next >= i && (i <= e ==> r.next <= e)
  {
    if !DigitAt(s, i, e) then NumScan(NoIntDigits, i, i, 0, neg, false)
    else
      var j := DigitRun(s, i, e);
      var sc := NumScan(NumOk, j, i, j - i, neg, false);
      if j - i > 1 && s[i] == 0x30 then sc.(err := LeadingZero)
      else ScanFrac(s, j, e, sc)
  }

  /** scan_number as a function of the text and the bounds. */
  function Scan(s: bytes, p: nat, e: nat): (r: NumScan)
    requires e <= |s|
    ensures r.next >= p && (p <= e ==> r.next <= e)
  {
    var neg := p < e && s[p] == MINUS;
    ScanInt(s, if neg then p + 1 else p, e, neg)
  }

  /** What an accepted scan says about its integer part. */
  lemma ScanShape(s: bytes, p: nat, e: nat)
    requires e <= |s|
    requires Scan(s, p, e).err.NumOk?
    ensures var r := Scan(s, p, e);
      && p <= r.intStart < r.intStart + r.intDigits <= r.next <= e
      && r.intStart == (if r.negative then p + 1 else p)
      && (r.negative <==> s[p] == MINUS)
      && IsIntPart(s, r.intStart, r.intStart + r.intDigits)
  {
    DigitRunDigits(s, if s[p] == MINUS then p + 1 else p, e);
  }

  method SkipDigits(s: bytes, p: nat, e: nat) returns (q: nat)
    requires e <= |s|
    ensures q == DigitRun(s, p, e)
  {
    q := p;
    while q < e && IsDigit(s[q])
      invariant q >= p
      invariant DigitRun(s, p, e) == DigitRun(s, q, e)
    {
      q := q + 1;
    }
  }

  /** The exponent part of the scanner. */
  method ScanExponent(s: bytes, start: nat, e: nat, sc: NumScan) returns (r: NumScan)
    requires e <= |s|
    ensures r == ScanExp(s, start, e, sc)
  {
    var p := start;
    var isFloat := sc.isFloat;
    if p < e && IsExpMark(s[p]) {
      isFloat := true;
      p := p + 1;
      if p < e && IsSign(s[p]) {
        p := p + 1;
      }
      if p >= e || s[p] < 0x30 || s[p] > 0x39 {
        return sc.(err := NoExpDigits, next := p, isFloat := isFloat);
      }
      p := SkipDigits(s, p, e);
    }
    return sc.(err := NumOk, next := p, isFloat := isFloat);
  }

  /** The scanner: a cursor over the text, digit loops, four error exits. */
  method ScanNumber(s: bytes, start: nat, e: nat) returns (r: NumScan)
    requires e <= |s|
    ensures r == Scan(s, start, e)
  {
    var p := start;
    var negative := false;
    if p < e && s[p] == MINUS {
      negative := true;
      p := p + 1;
    }
    if p >= e || s[p] < 0x30 || s[p] > 0x39 {
      return NumScan(NoIntDigits, p, p, 0, negative, false);
    }
    var intStart := p;
    p := SkipDigits(s, p, e);
    var sc := NumScan(NumOk, p, intStart, p - intStart, negative, false);
    if sc.intDigits > 1 && s[intStart] == 0x30 {
      return sc.(err := LeadingZero);
    }
    if p < e && s[p] == DOT {
      p := p + 1;
      if p >= e || s[p] < 0x30 || s[p] > 0x39 {
        return sc.(err := NoFracDigits, next := p, isFloat := true);
      }
      p := SkipDigits(s, p, e);
      sc := sc.(isFloat := true);
    }
    r := ScanExponent(s, p, e, sc);
  }

  // ---- the RFC 8259 section 6 grammar, stated without a scanner ----

  predicate IsIntPart(s: bytes, i: nat, j: nat)
    requires j <= |s|
  {
    i < j && Digits(s, i, j) && (j - i > 1 ==> s[i] != '0' as int)
  }

  predicate IsFracPart(s: bytes, j: nat, k: nat)
    requires j <= k <= |s|
  {
    j == k || (j + 1 < k && s[j] == '.' as int && Digits(s, j + 1, k))
  }

  predicate IsExpPart(s: bytes, k: nat, q: nat)
    requires k <= q <= |s|
  {
    || k == q
    || (k + 1 < q && ExpMark(s[k]) && Digits(s, k + 1, q))
    || (k + 2 < q && ExpMark(s[k]) && Sign(s[k + 1]) && Digits(s, k + 2, q))
  }

  predicate IsNumberSplit(s: bytes, p: nat, i: nat, j: nat, k: nat, q: nat) {
    && p <= i <= j <= k <= q <= |s|
    && (i == p || (i == p + 1 && s[p] == '-' as int))
    && IsIntPart(s, i, j) && IsFracPart(s, j, k) && IsExpPart(s, k, q)
  }

  /** number = [ minus ] int [ frac ] [ exp ], spanning exactly s[p..q]. */
  ghost predicate IsNumberToken(s: bytes, p: nat, q: nat) {
    exists i: nat, j: nat, k: nat :: IsNumberSplit(s, p, i, j, k, q)
  }

  /** A byte that could prolong a number token. */
  predicate Prolongs(s: bytes, q: nat, e: nat)
    requires e <= |s|
  {
    q < e && (IsDigit(s[q]) || s[q] == DOT || IsExpMark(s[q]))
  }

  lemma ScanExpSound(s: bytes, k: nat, e: nat, sc: NumScan)
    requires k <= e <= |s|
    requires ScanExp(s, k, e, sc).err.NumOk?
    requires !DigitAt(s, k, e)
    ensures IsExpPart(s, k, ScanExp(s, k, e, sc).next)
    ensures !DigitAt(s, ScanExp(s, k, e, sc).next, e)
  {
    if k < e && IsExpMark(s[k]) {
      DigitRunDigits(s, if k + 1 < e && IsSign(s[k + 1]) then k + 2 else k + 1, e);
    }
  }

  /** Whatever the scanner accepts is a number token of the grammar, and no digit follows it. */
  lemma ScanSound(s: bytes, p: nat, e: nat)
    requires e <= |s|
    requires Scan(s, p, e).err.NumOk?
    ensures IsNumberToken(s, p, Scan(s, p, e).next)
    ensures !DigitAt(s, Scan(s, p, e).next, e)
  {
    hide ScanExp, IsExpPart, DigitRun;
    var i := if s[p] == MINUS then p + 1 else p;
    var j := DigitRun(s, i, e);
    DigitRunDigits(s, i, e);
    var sc := NumScan(NumOk, j, i, j - i, s[p] == MINUS, false);
    if j < e && s[j] == DOT {
      DigitRunDigits(s, j + 1, e);
      var k := DigitRun(s, j + 1, e);
      ScanExpSound(s, k, e, sc.(isFloat := true));
      assert IsNumberSplit(s, p, i, j, k, Scan(s, p, e).next);
    } else {
      ScanExpSound(s, j, e, sc);
      assert IsNumberSplit(s, p, i, j, j, Scan(s, p, e).next);
    }
  }

  lemma {:induction false} DigitRunIs(s: bytes, p: nat, q: nat, e: nat)
    requires p <= q <= e <= |s|
    requires DigitsIn(s, p, q)
    requires !DigitAt(s, q, e)
    ensures DigitRun(s, p, e) == q
    decreases q - p
  {
    if p < q { DigitRunIs(s, p + 1, q, e); }
  }

  /** Every number token of the grammar that the next byte cannot prolong is accepted, to its end. */
  lemma ScanComplete(s: bytes, p: nat, q: nat, e: nat)
    requires q <= e <= |s|
    requires IsNumberToken(s, p, q)
    requires !Prolongs(s, q, e)
    ensures Scan(s, p, e).err.NumOk? && Scan(s, p, e).next == q
  {
    var i: nat, j: nat, k: nat :| IsNumberSplit(s, p, i, j, k, q);
    assert IsDigit(s[i]);
    ScanIntComplete(s, i, j, k, q, e, i != p);
  }

  lemma ScanIntComplete(s: bytes, i: nat, j: nat, k: nat, q: nat, e: nat, neg: bool)
    requires i <= j <= k <= q <= e <= |s|
    requires IsIntPart(s, i, j) && IsFracPart(s, j, k) && IsExpPart(s, k, q)
    requires !Prolongs(s, q, e)
    ensures ScanInt(s, i, e, neg) == NumScan(NumOk, q, i, j - i, neg, j < q)
  {
    DigitRunIs(s, i, j, e);
    var sc := NumScan(NumOk, j, i, j - i, neg, false);
    if j < k {
      DigitRunIs(s, j + 1, k, e);
      ScanExpComplete(s, k, q, e, sc.(isFloat := true));
    } else {
      ScanExpComplete(s, k, q, e, sc);
    }
  }

  lemma ScanExpComplete(s: bytes, k: nat, q: nat, e: nat, sc: NumScan)
    requires k <= q <= e <= |s|
    requires IsExpPart(s, k, q)
    requires !Prolongs(s, q, e)
    ensures ScanExp(s, k, e, sc) == sc.(err := NumOk, next := q, isFloat := sc.isFloat || k < q)
  {
    if k + 2 < q && IsSign(s[k + 1]) {
      DigitRunIs(s, k + 2, q, e);
    } else if k < q {
      DigitRunIs(s, k + 1, q, e);
    }
  }

  // ---- stability under a longer window ----

  lemma DigitRunPrefix(s: bytes, p: nat, e: nat, e': nat)
    requires e <= e' <= |s|
    requires DigitRun(s, p, e) < e
    ensures DigitRun(s, p, e') == DigitRun(s, p, e)
    decreases e - p
  {
    if p < e && IsDigit(s[p]) { DigitRunPrefix(s, p + 1, e, e'); }
  }

  lemma ScanExpPrefix(s: bytes, p: nat, e: nat, e': nat, sc: NumScan)
    requires e <= e' <= |s|
    requires p <= e && ScanExp(s, p, e, sc).next < e
    ensures ScanExp(s, p, e', sc) == ScanExp(s, p, e, sc)
  {
    if IsExpMark(s[p]) {
      var m := if p + 1 < e && IsSign(s[p + 1]) then p + 2 else p + 1;
      if DigitAt(s, m, e) { DigitRunPrefix(s, m, e, e'); }
    }
  }

  lemma ScanFracPrefix(s: bytes, p: nat, e: nat, e': nat, sc: NumScan)
    requires e <= e' <= |s|
    requires p <= e && ScanFrac(s, p, e, sc).next < e
    ensures ScanFrac(s, p, e', sc) == ScanFrac(s, p, e, sc)
  {
    if s[p] == DOT {
      if DigitAt(s, p + 1, e) {
        var k := DigitRun(s, p + 1, e);
        ScanExpPrefix(s, k, e, e', sc.(isFloat := true));
        DigitRunPrefix(s, p + 1, e, e');
      }
    } else {
      ScanExpPrefix(s, p, e, e', sc);
    }
  }

  lemma ScanIntPrefix(s: bytes, i: nat, e: nat, e': nat, neg: bool)
    requires e <= e' <= |s|
    requires i <= e && ScanInt(s, i, e, neg).next < e
    ensures ScanInt(s, i, e', neg) == ScanInt(s, i, e, neg)
  {
    if DigitAt(s, i, e) {
      var j := DigitRun(s, i, e);
      if !(j - i > 1 && s[i] == 0x30) {
        ScanFracPrefix(s, j, e, e', NumScan(NumOk, j, i, j - i, neg, false));
      }
      DigitRunPrefix(s, i, e, e');
    }
  }

  /** A scan that stops before the end of its window gives the same answer for every longer window. */
  lemma ScanPrefix(s: bytes, p: nat, e: nat, e': nat)
    requires e <= e' <= |s|
    requires p < e && Scan(s, p, e).next < e
    ensures Scan(s, p, e') == Scan(s, p, e)
  {
    ScanIntPrefix(s, if s[p] == MINUS then p + 1 else p, e, e', s[p] == MINUS);
  }
}
