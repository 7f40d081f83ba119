/**
 Integer classification: which tokens become int64, and the decimal text of an int64.
 64-bit and 32-bit arithmetic is written with explicit wrap-around.
 */
module Numbers {
  import opened Core
  import opened Grammar
  import opened Lexis

  const U64: int := 0x1_0000_0000_0000_0000
  const U32: int := 0x1_0000_0000

  /** 9223372036854775807 and 9223372036854775808, as text. */
  const MAX_DIGITS: bytes := [57, 50, 50, 51, 51, 55, 50, 48, 51, 54, 56, 53, 52, 55, 55, 53, 56, 48, 55]
  const MIN_ABS_DIGITS: bytes := [57, 50, 50, 51, 51, 55, 50, 48, 51, 54, 56, 53, 52, 55, 55, 53, 56, 48, 56]

  predicate AllDigits(t: bytes) { DigitsIn(t, 0, |t|) }

  /** The number a run of decimal digits denotes. */
  function Dec(t: bytes): (v: nat)
    requires AllDigits(t)
  {
    if |t| == 0 then 0 else Dec(t[..|t| - 1]) * 10 + (t[|t| - 1] - 0x30)
  }

  /** The number is the one its digits denote. */
  lemma {:induction false} DecimalMeans(t: bytes)
    ensures AllDigits(t) <==> IsDecimal(t)
    ensures AllDigits(t) ==> Dec(t) == DecimalValue(t)
    decreases |t|
  {
    if |t| > 0 { DecimalMeans(t[..|t| - 1]); }
  }

  function Pow10(n: nat): (r: nat)
    ensures r >= 1
  {
    if n == 0 then 1 else 10 * Pow10(n - 1)
  }

  lemma {:induction false} DecBounds(t: bytes)
    requires AllDigits(t)
    ensures Dec(t) < Pow10(|t|)
    ensures |t| > 0 && t[0] != 0x30 ==> Pow10(|t| - 1) <= Dec(t)
  {
    if |t| > 0 {
      DecBounds(t[..|t| - 1]);
    }
  }

  lemma {:induction false} Pow10Grows(a: nat, b: nat)
    requires a <= b
    ensures Pow10(a) <= Pow10(b)
  {
    if a < b { Pow10Grows(a, b - 1); }
  }

  lemma Pow10Values()
    ensures Pow10(18) == 1_000_000_000_000_000_000 && Pow10(19) == 10_000_000_000_000_000_000
  {
    assert Pow10(4) == 10_000;
    assert Pow10(8) == 10_000 * Pow10(4);
    assert Pow10(12) == 10_000 * Pow10(8);
    assert Pow10(16) == 10_000 * Pow10(12);
  }

  /** parse_u64: accumulate with 64-bit wrap-around. Up to 19 digits it never wraps. */
  method ParseU64(t: bytes) returns (v: nat)
    requires AllDigits(t) && |t| <= 19
    ensures v == Dec(t) < U64
  {
    hide Dec;
    v := 0;
    NoDigits(t);
    for i := 0 to |t|
      invariant v == Dec(t[..i]) < U64
    {
      AccumulateStep(t, i, v);
      v := ((v * 10) % U64 + (t[i] - 0x30)) % U64;
    }
    assert t[..|t|] == t;
  }

  lemma NoDigits(t: bytes)
    ensures Dec(t[..0]) == 0
  {
  }

  /** A step of the accumulator does not wrap within 19 digits. */
  lemma AccumulateStep(t: bytes, i: nat, v: nat)
    requires AllDigits(t) && i < |t| <= 19 && v == Dec(t[..i]) < U64
    ensures 0x30 <= t[i] && ((v * 10) % U64 + (t[i] - 0x30)) % U64 == Dec(t[..i + 1]) < U64
  {
    DecStep(t, i, v);
    DecBounds(t[..i + 1]);
    Pow10Grows(i + 1, 19);
    Pow10Values();
    hide Dec, Pow10;
  }

  // ---- equal-width lexicographic comparison is numeric comparison ----

  /** std::string_view::operator<= : the first difference decides, a proper prefix is smaller. */
  predicate LexLeq(a: bytes, b: bytes) {
    if |a| == 0 then true
    else if |b| == 0 then false
    else if a[0] != b[0] then a[0] < b[0]
    else LexLeq(a[1..], b[1..])
  }

  lemma {:induction false} DecHead(t: bytes)
    requires AllDigits(t) && |t| > 0
    ensures Dec(t) == (t[0] - 0x30) * Pow10(|t| - 1) + Dec(t[1..])
  {
    var n := |t|;
    if n > 1 {
      DecHead(t[..n - 1]);
      DecSplit(t);
      hide Dec;
      var x: int, p: int := t[0] - 0x30, Pow10(n - 2);
      assert Pow10(n - 1) == 10 * p;
      TenTimes(x, p);
    }
  }

  lemma DecSplit(t: bytes)
    requires AllDigits(t) && |t| > 1
    ensures var n := |t|; var u := t[..n - 1];
      && Dec(t) == Dec(u) * 10 + (t[n - 1] - 0x30) && Dec(t[1..]) == Dec(u[1..]) * 10 + (t[n - 1] - 0x30)
      && u[0] == t[0]
  {
    assert t[1..][..|t| - 2] == t[..|t| - 1][1..];
  }

  lemma TenTimes(x: int, p: int)
    ensures x * p * 10 == x * (10 * p)
  {
  }

  lemma LeadingDigitDecides(x: int, r: nat, y: int, s: nat, p: nat)
    requires r < p && s < p
    ensures x < y ==> x * p + r < y * p + s
    ensures x > y ==> x * p + r > y * p + s
  {
    if x < y { assert (x + 1) * p <= y * p; }
    if x > y { assert (y + 1) * p <= x * p; }
  }

  lemma {:induction false} LexIsNumeric(a: bytes, b: bytes)
    requires AllDigits(a) && AllDigits(b) && |a| == |b|
    ensures LexLeq(a, b) <==> Dec(a) <= Dec(b)
  {
    if |a| > 0 {
      DecHead(a);
      DecHead(b);
      LexIsNumeric(a[1..], b[1..]);
      DecBounds(a[1..]);
      DecBounds(b[1..]);
      LeadingDigitDecides(a[0] - 0x30, Dec(a[1..]), b[0] - 0x30, Dec(b[1..]), Pow10(|a| - 1));
    }
  }

  predicate Fits19(t: bytes, negative: bool) {
    LexLeq(t, if negative then MIN_ABS_DIGITS else MAX_DIGITS)
  }

  lemma LimitValues()
    ensures AllDigits(MAX_DIGITS) && Dec(MAX_DIGITS) == INT64_MAX
    ensures AllDigits(MIN_ABS_DIGITS) && Dec(MIN_ABS_DIGITS) == -INT64_MIN
  {
    LimitPrefix();
    var t := MAX_DIGITS;
    assert t[..18] == MIN_ABS_DIGITS[..18];
    assert Dec(t) == Dec(t[..18]) * 10 + 7;
    assert Dec(MIN_ABS_DIGITS) == Dec(t[..18]) * 10 + 8;
  }

  lemma LimitPrefix()
    ensures AllDigits(MAX_DIGITS[..18]) && Dec(MAX_DIGITS[..18]) == 922_337_203_685_477_580
  {
    var t := MAX_DIGITS[..18];
    assert t == [57, 50, 50, 51, 51, 55, 50, 48, 51, 54, 56, 53, 52, 55, 55, 53, 56, 48];
    DecStep(t, 0, 0);
    DecStep(t, 1, 9); DecStep(t, 2, 92); DecStep(t, 3, 922); DecStep(t, 4, 9223); DecStep(t, 5, 92233);
    DecStep(t, 6, 922337); DecStep(t, 7, 9223372); DecStep(t, 8, 92233720); DecStep(t, 9, 922337203);
    DecStep(t, 10, 9223372036); DecStep(t, 11, 92233720368); DecStep(t, 12, 922337203685);
    DecStep(t, 13, 9223372036854); DecStep(t, 14, 92233720368547); DecStep(t, 15, 922337203685477);
    DecStep(t, 16, 9223372036854775); DecStep(t, 17, 92233720368547758);
    assert t[..18] == t;
  }

  lemma DecStep(t: bytes, i: nat, v: nat)
    requires AllDigits(t) && i < |t|
    requires Dec(t[..i]) == v
    ensures Dec(t[..i + 1]) == v * 10 + (t[i] - 0x30)
  {
    assert t[..i + 1][..i] == t[..i];
  }

  // ---- classification ----

  function Signed(v: int, negative: bool): int {
    if negative then -v else v
  }

  /** The mathematical value of an integer token. */
  function IntegerValue(s: bytes, sc: NumScan): int
    requires sc.intStart + sc.intDigits <= |s| && DigitsIn(s, sc.intStart, sc.intStart + sc.intDigits)
  {
    Signed(Dec(s[sc.intStart..sc.intStart + sc.intDigits]), sc.negative)
  }

  predicate IsInt64(n: int) { INT64_MIN <= n <= INT64_MAX }

  function FloatOutcome(r: FloatParse, start: nat, next: nat): Parsed<Json> {
    match r
    case OutOfRange => Fail(Positioned(NumberOutOfRange, start))
    case BadFormat => Fail(Positioned(NumberInvalidFormat, next))
    case InRange(d) => Ok(Float(d), next)
  }

  /** The digit count as the classifier sees it: narrowed to 32 bits. */
  function NarrowedDigits(sc: NumScan): nat { sc.intDigits % U32 }

  /** The classifier takes its integer branch. */
  predicate TakesInteger(s: bytes, sc: NumScan)
    requires sc.intStart + sc.intDigits <= |s|
  {
    var n := NarrowedDigits(sc);
    !sc.isFloat && (n < 19 || (n == 19 && Fits19(s[sc.intStart..sc.intStart + 19], sc.negative)))
  }

  ghost predicate Scanned(s: bytes, p: nat, sc: NumScan) {
    && sc.intStart + sc.intDigits <= sc.next <= |s|
    && p <= sc.intStart
    && IsIntPart(s, sc.intStart, sc.intStart + sc.intDigits)
  }

  lemma NarrowFits(s: bytes, sc: NumScan)
    requires sc.intStart + sc.intDigits <= |s| && DigitsIn(s, sc.intStart, sc.intStart + sc.intDigits)
    requires TakesInteger(s, sc)
    ensures var t := s[sc.intStart..sc.intStart + NarrowedDigits(sc)];
      AllDigits(t) && IsInt64(Signed(Dec(t), sc.negative))
  {
    var t := s[sc.intStart..sc.intStart + NarrowedDigits(sc)];
    assert AllDigits(t);
    DecBounds(t);
    Pow10Values();
    if |t| < 19 {
      Pow10Grows(|t|, 18);
    } else {
      LimitValues();
      LexIsNumeric(t, if sc.negative then MIN_ABS_DIGITS else MAX_DIGITS);
    }
  }

  /** classify_number as a function of the scanned token s[p..sc.next]. */
  function Classify(lib: FloatLib, s: bytes, p: nat, sc: NumScan): (r: Parsed<Json>)
    requires p <= sc.next <= |s| && sc.intStart + sc.intDigits <= |s|
    requires DigitsIn(s, sc.intStart, sc.intStart + sc.intDigits)
    ensures r.Ok? ==> r.next == sc.next && (r.value.Int? || r.value.Float?)
  {
    if TakesInteger(s, sc) then
      NarrowFits(s, sc);
      Ok(Int(Signed(Dec(s[sc.intStart..sc.intStart + NarrowedDigits(sc)]), sc.negative)), sc.next)
    else FloatOutcome(lib.fromChars(s[p..sc.next]), p, sc.next)
  }

  /** The classifier, step by step. */
  method ClassifyNumber(lib: FloatLib, s: bytes, p: nat, sc: NumScan) returns (r: Parsed<Json>)
    requires Scanned(s, p, sc)
    ensures r == Classify(lib, s, p, sc)
  {
    var digits := sc.intDigits % U32;
    if !sc.isFloat {
      if digits < 19 {
        NarrowFits(s, sc);
        var uval: int := ParseU64(s[sc.intStart..sc.intStart + digits]);
        var val: int64 := if sc.negative then -uval else uval;
        return Ok(Int(val), sc.next);
      }
      if digits == 19 && Fits19(s[sc.intStart..sc.intStart + 19], sc.negative) {
        NarrowFits(s, sc);
        var uval: int := ParseU64(s[sc.intStart..sc.intStart + digits]);
        var val: int64;
        if sc.negative && uval == -INT64_MIN {
          val := INT64_MIN;
        } else {
          val := if sc.negative then -uval else uval;
        }
        return Ok(Int(val), sc.next);
      }
    }
    return FloatOutcome(lib.fromChars(s[p..sc.next]), p, sc.next);
  }

  /** Below 2^32 digits, a pure-integer token becomes Integer exactly when its value fits int64, with that value. */
  lemma ClassifyCorrect(lib: FloatLib, s: bytes, p: nat, sc: NumScan)
    requires Scanned(s, p, sc) && !sc.isFloat && sc.intDigits < U32
    ensures TakesInteger(s, sc) <==> IsInt64(IntegerValue(s, sc))
    ensures IsInt64(IntegerValue(s, sc)) ==> Classify(lib, s, p, sc) == Ok(Int(IntegerValue(s, sc)), sc.next)
    ensures !IsInt64(IntegerValue(s, sc)) ==>
      Classify(lib, s, p, sc) == FloatOutcome(lib.fromChars(s[p..sc.next]), p, sc.next)
  {
    var t := s[sc.intStart..sc.intStart + sc.intDigits];
    assert AllDigits(t);
    if sc.intDigits >= 19 {
      if sc.intDigits == 19 {
        LimitValues();
        LexIsNumeric(t, if sc.negative then MIN_ABS_DIGITS else MAX_DIGITS);
      } else {
        TooManyDigits(t);
      }
    } else {
      NarrowFits(s, sc);
    }
  }

  lemma TooManyDigits(t: bytes)
    requires AllDigits(t) && |t| >= 20 && t[0] != 0x30
    ensures Dec(t) > -INT64_MIN
  {
    DecBounds(t);
    Pow10Grows(19, |t| - 1);
    Pow10Values();
  }

  /**
   The exact limit of the classifier. At 2^32 digits and beyond the value never fits int64, so the outcome is
   right exactly when the narrowed count does not lead into the integer branch.
   */
  lemma ClassifyExact(lib: FloatLib, s: bytes, p: nat, sc: NumScan)
    requires Scanned(s, p, sc) && !sc.isFloat
    ensures (Classify(lib, s, p, sc).Ok? && Classify(lib, s, p, sc).value.Int?
             <==> IsInt64(IntegerValue(s, sc)))
       <==> (sc.intDigits < U32 || !TakesInteger(s, sc)
             )
  {
    if sc.intDigits < U32 {
      ClassifyCorrect(lib, s, p, sc);
    } else {
      var t := s[sc.intStart..sc.intStart + sc.intDigits];
      assert AllDigits(t);
      TooManyDigits(t);
    }
  }

  /** A token of 2^32 + 1 nines is taken for the integer 9. */
  lemma NarrowingMisreads(lib: FloatLib, s: bytes)
    requires |s| == U32 + 1 && forall i :: 0 <= i < |s| ==> s[i] == 0x39
    ensures var sc := NumScan(NumOk, |s|, 0, |s|, false, false);
      Scanned(s, 0, sc) && Classify(lib, s, 0, sc) == Ok(Int(9), |s|) && !IsInt64(IntegerValue(s, sc))
  {
    var sc := NumScan(NumOk, |s|, 0, |s|, false, false);
    assert NarrowedDigits(sc) == 1;
    var t := s[..1];
    assert s[0..1] == t && t[..0] == [];
    assert Dec(t) == 9;
    assert s[0..|s|] == s;
    TooManyDigits(s);
  }

  // ---- decimal text of an int64 ----

  function DecText(n: nat): (t: bytes)
    ensures |t| >= 1
    decreases n
  {
    if n < 10 then [0x30 + n] else DecText(n / 10) + [0x30 + n % 10]
  }

  function Magnitude(v: int): nat { if v < 0 then -v else v }

  function IntText(v: int64): (t: bytes)
    ensures |t| >= 1
  {
    if v < 0 then [MINUS] + DecText(Magnitude(v)) else DecText(Magnitude(v))
  }

  lemma {:induction false} DecTextRoundTrip(n: nat)
    ensures AllDigits(DecText(n)) && Dec(DecText(n)) == n
    ensures |DecText(n)| > 1 ==> DecText(n)[0] != 0x30
    ensures n > 0 ==> DecText(n)[0] != 0x30
    ensures |DecText(n)| == 1 || Pow10(|DecText(n)| - 1) <= n
  {
    if n < 10 {
      assert DecText(n)[..0] == [];
    } else {
      var t := DecText(n / 10);
      DecTextRoundTrip(n / 10);
      assert DecText(n)[..|t|] == t;
      DecBounds(DecText(n));
    }
  }

  /** const_dump_int: digits are produced backwards into a buffer, then emitted forwards. */
  method DumpInt(v: int64) returns (sink: bytes)
    ensures sink == IntText(v)
  {
    hide Reversed;
    sink := [];
    var w: int := v;
    var neg := w < 0;
    var m: nat := if neg then (-(w + 1)) + 1 else w;
    ghost var m0 := m;
    var buf: bytes := [];
    NothingReversed(buf);
    var go := true;
    while go
      invariant go ==> DecText(m0) == DecText(m) + Reversed(buf)
      invariant !go ==> DecText(m0) == Reversed(buf)
      decreases go, m
    {
      ghost var b0 := buf;
      buf := buf + [0x30 + m % 10];
      assert Reversed(buf) == [0x30 + m % 10] + Reversed(b0) by { ReversedSnoc(b0, 0x30 + m % 10); }
      m := m / 10;
      go := m != 0;
    }
    if neg {
      sink := sink + [MINUS];
    }
    ghost var before := sink;
    var n: nat := |buf|;
    assert buf[..n] == buf;
    while n != 0
      invariant n <= |buf|
      invariant sink + Reversed(buf[..n]) == before + Reversed(buf)
      decreases n
    {
      n := n - 1;
      assert buf[..n + 1] == buf[..n] + [buf[n]];
      ReversedSnoc(buf[..n], buf[n]);
      sink := sink + [buf[n]];
    }
    NothingReversed(buf[..0]);
    assert sink == sink + Reversed(buf[..0]);
  }

  function Reversed(t: bytes): bytes {
    if |t| == 0 then [] else Reversed(t[1..]) + [t[0]]
  }

  lemma NothingReversed(t: bytes)
    requires |t| == 0
    ensures Reversed(t) == []
  {
  }

  lemma {:induction false} ReversedSnoc(t: bytes, c: byte)
    ensures Reversed(t + [c]) == [c] + Reversed(t)
  {
    if |t| == 0 {
    } else {
      ReversedSnoc(t[1..], c);
      assert (t + [c])[1..] == t[1..] + [c];
    }
  }

  lemma IntTextShape(v: int64)
    ensures |IntText(v)| <= 20
    ensures IntText(v)[0] == MINUS || IsDigit(IntText(v)[0])
  {
    var m := Magnitude(v);
    DecTextRoundTrip(m);
    if |DecText(m)| > 19 {
      Pow10Grows(19, |DecText(m)| - 1);
      Pow10Values();
    }
  }

  /** The text of any int64, INT64_MIN included, scans as one integer token and classifies back to that int64. */
  lemma IntTextClassifies(lib: FloatLib, s: bytes, p: nat, e: nat, v: int64)
    requires e <= |s| && p + |IntText(v)| <= e && MatchAt(s, p, IntText(v))
    requires !Prolongs(s, p + |IntText(v)|, e)
    ensures var sc := Scan(s, p, e); var q := p + |IntText(v)|;
      sc.err.NumOk? && sc.next == q && Scanned(s, p, sc) && Classify(lib, s, p, sc) == Ok(Int(v), q)
  {
    hide Dec, DecText, Classify, TakesInteger, ScanInt, ScanFrac;
    var m := Magnitude(v);
    var t := IntText(v);
    var q := p + |t|;
    var i := if v < 0 then p + 1 else p;
    IntTextDigits(s, p, v);
    DecTextRoundTrip(m);
    IntTextShape(v);
    ScanIntComplete(s, i, q, q, q, e, v < 0);
    var sc := NumScan(NumOk, q, i, q - i, v < 0, false);
    assert Scan(s, p, e) == sc;
    ClassifyCorrect(lib, s, p, sc);
  }

  lemma IntTextDigits(s: bytes, p: nat, v: int64)
    requires MatchAt(s, p, IntText(v))
    ensures var i := if v < 0 then p + 1 else p; var q := p + |IntText(v)|;
      && i < q && s[i..q] == DecText(Magnitude(v)) && DigitsIn(s, i, q)
      && (v < 0 ==> s[p] == MINUS) && (v >= 0 ==> s[p] != MINUS)
  {
    var d := DecText(Magnitude(v));
    DecTextRoundTrip(Magnitude(v));
    if v < 0 {
      MatchConcat(s, p, [MINUS], d);
      assert s[p + 0] == [MINUS][0];
      DigitsMatch(s, p + 1, d);
    } else {
      DigitsMatch(s, p, d);
    }
  }

  lemma DigitsMatch(s: bytes, i: nat, d: bytes)
    requires MatchAt(s, i, d) && AllDigits(d)
    ensures s[i..i + |d|] == d && DigitsIn(s, i, i + |d|)
  {
    forall k | i <= k < i + |d| ensures s[k] == d[k - i] {
      assert s[i + (k - i)] == d[k - i];
    }
  }

  // ---- JSON5 hexadecimal integers ----

  predicate HexIn(s: bytes, i: nat, j: nat)
    requires j <= |s|
  {
    forall k :: i <= k < j ==> HexValue(s[k]) >= 0
  }

  function HexNum(t: bytes): (v: nat)
    requires HexIn(t, 0, |t|)
  {
    if |t| == 0 then 0 else HexNum(t[..|t| - 1]) * 16 + HexValue(t[|t| - 1])
  }

  function Pow16(n: nat): (r: nat)
    ensures r >= 1
  {
    if n == 0 then 1 else 16 * Pow16(n - 1)
  }

  lemma {:induction false} HexBounds(t: bytes, z: nat)
    requires HexIn(t, 0, |t|) && z <= |t|
    requires forall k :: 0 <= k < z ==> t[k] == 0x30
    ensures HexNum(t) < Pow16(|t| - z)
    ensures z < |t| && t[z] != 0x30 ==> Pow16(|t| - z - 1) <= HexNum(t)
  {
    if |t| > 0 {
      if z == |t| {
        HexBounds(t[..|t| - 1], z - 1);
      } else {
        HexBounds(t[..|t| - 1], z);
        var v := HexNum(t[..|t| - 1]);
        if z == |t| - 1 { assert v == 0; }
      }
    }
  }

  lemma {:induction false} Pow16Grows(a: nat, b: nat)
    requires a <= b
    ensures Pow16(a) <= Pow16(b)
  {
    if a < b { Pow16Grows(a, b - 1); }
  }

  lemma Pow16Values()
    ensures Pow16(15) == 0x1000_0000_0000_0000 && Pow16(16) == U64
  {
    assert Pow16(4) == 0x1_0000;
    assert Pow16(8) == 0x1_0000 * Pow16(4);
    assert Pow16(12) == 0x1_0000 * Pow16(8);
  }

  /** The hexadecimal gate: a digit run becomes Integer exactly when its value fits int64. */
  function HexOutcome(t: bytes, negative: bool): (r: Option<int64>)
    requires HexIn(t, 0, |t|)
  {
    var n := Signed(HexNum(t), negative);
    if IsInt64(n) then Some(n) else None
  }

  /** The hex path of the number parser: leading zeros skipped, at most 16 significant digits accumulated mod 2^64. */
  method ClassifyHex(t: bytes, negative: bool) returns (r: Option<int64>, sig: nat)
    requires HexIn(t, 0, |t|)
    ensures r == HexOutcome(t, negative)
    ensures sig <= |t| && (forall k :: 0 <= k < sig ==> t[k] == 0x30) && (sig < |t| ==> t[sig] != 0x30)
  {
    sig := 0;
    while sig < |t| && t[sig] == 0x30
      invariant sig <= |t| && forall k :: 0 <= k < sig ==> t[k] == 0x30
    {
      sig := sig + 1;
    }
    HexBounds(t, sig);
    Pow16Values();
    var sigDigits := |t| - sig;
    if sigDigits <= 16 {
      Pow16Grows(sigDigits, 16);
      var uval: int := AccumulateHex(t, sig);
      var fits := true;
      if sigDigits == 16 {
        fits := if negative then uval <= -INT64_MIN else uval <= INT64_MAX;
      } else {
        Pow16Grows(sigDigits, 15);
      }
      if fits {
        var val: int64;
        if negative && uval == -INT64_MIN {
          val := INT64_MIN;
        } else {
          val := if negative then -uval else uval;
        }
        return Some(val), sig;
      }
    } else {
      Pow16Grows(16, sigDigits - 1);
    }
    return None, sig;
  }

  method AccumulateHex(t: bytes, z: nat) returns (uval: nat)
    requires HexIn(t, 0, |t|) && z <= |t| && |t| - z <= 16
    requires forall k :: 0 <= k < z ==> t[k] == 0x30
    ensures uval == HexNum(t) < U64
  {
    uval := 0;
    for i := 0 to |t|
      invariant uval == HexNum(t[..i]) < U64
    {
      HexPrefix(t, z, i);
      uval := ((uval * 16) % U64 + HexValue(t[i])) % U64;
    }
    assert t[..|t|] == t;
  }

  lemma HexPrefix(t: bytes, z: nat, i: nat)
    requires HexIn(t, 0, |t|) && z <= |t| && |t| - z <= 16 && i < |t|
    requires forall k :: 0 <= k < z ==> t[k] == 0x30
    ensures HexNum(t[..i + 1]) == HexNum(t[..i]) * 16 + HexValue(t[i]) < U64
    ensures HexNum(t[..i]) * 16 < U64
  {
    var u := t[..i + 1];
    assert u[..i] == t[..i];
    var y := if z <= i + 1 then z else i + 1;
    HexBounds(u, y);
    Pow16Grows(|u| - y, 16);
    Pow16Values();
  }
}
