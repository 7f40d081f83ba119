/**
 Numeric equality against the library's typed equality. A patch compares numbers by their values (section 4.6 of RFC
 6902); the library's operator== compares the types of two values first. Both are stated over trees, and they differ
 exactly where an integer meets a double.
 */
module NumericEquality {
  import opened Core
  import opened JsonOrder

  // ---- the value of a double ----

  function Pow2(n: nat): (r: nat)
    ensures r > 0
  {
    if n == 0 then 1 else 2 * Pow2(n - 1)
  }

  const FRACTION: nat := 0x10_0000_0000_0000

  /** Neither an infinity nor a NaN. */
  predicate Finite(d: Double) { d % SIGN < INF }

  lemma Positive(f: nat, p: nat)
    requires f > 0 && p > 0
    ensures f * p > 0
  {
  }

  function Exponent(m: nat): nat { m / 0x10_0000_0000_0000 }
  function Fraction(m: nat): nat { m % 0x10_0000_0000_0000 }

  /** The magnitude of a finite pattern without its sign bit, in units of the smallest subnormal, 2^-1074. */
  function Magnitude(m: nat): nat {
    if Exponent(m) == 0 then m
    else
      var f, p := FRACTION + Fraction(m), Pow2(Exponent(m) - 1);
      Positive(f, p);
      f * p
  }

  /** The value of a finite double in the same units. */
  function Scaled(d: Double): int {
    var m: int := Magnitude(d % SIGN);
    if d < SIGN then m else -m
  }

  /** The units in one. */
  const UNITS: nat := Pow2(1074)

  lemma FractionSteps(m: nat)
    ensures Fraction(m) < FRACTION
    ensures if Fraction(m + 1) == 0 then Fraction(m) == FRACTION - 1 && Exponent(m + 1) == Exponent(m) + 1
            else Fraction(m + 1) == Fraction(m) + 1 && Exponent(m + 1) == Exponent(m)
    ensures Exponent(m) == 0 ==> m == Fraction(m)
  {
  }

  lemma Larger(f: nat, p: nat)
    requires p > 0
    ensures f * p < (f + 1) * p && (2 * f) * p == f * (2 * p)
  {
  }

  /** The next pattern has the larger magnitude, across binades too. */
  lemma MagnitudeSteps(m: nat)
    ensures Magnitude(m) < Magnitude(m + 1)
  {
    hide Exponent, Fraction;
    FractionSteps(m);
    var e := Exponent(m);
    if e == 0 {
      if Fraction(m + 1) == 0 { assert Pow2(0) == 1; }
    } else if Fraction(m + 1) == 0 {
      var p := Pow2(e - 1);
      assert Pow2(e) == 2 * p;
      Larger(2 * FRACTION - 1, p);
      Larger(FRACTION, p);
    } else {
      Larger(FRACTION + Fraction(m), Pow2(e - 1));
    }
  }

  lemma {:induction false} MagnitudeGrows(m: nat, n: nat)
    requires m < n
    ensures Magnitude(m) < Magnitude(n)
    decreases n - m
  {
    hide Magnitude;
    MagnitudeSteps(n - 1);
    if m < n - 1 { MagnitudeGrows(m, n - 1); }
  }

  lemma {:induction false} Pow2Adds(m: nat, n: nat)
    ensures Pow2(m + n) == Pow2(m) * Pow2(n)
    decreases n
  {
    if n == 0 {
      assert Pow2(m) * Pow2(0) == Pow2(m);
    } else {
      Pow2Adds(m, n - 1);
      assert Pow2(m + n) == 2 * Pow2(m + (n - 1));
      Larger(Pow2(m), Pow2(n - 1));
      Doubles(Pow2(m), Pow2(n - 1));
    }
  }

  lemma Doubles(p: nat, q: nat)
    ensures 2 * (p * q) == p * (2 * q)
  {
  }

  /** Equality and order of finite doubles are those of their values; the two zeros are one value. */
  lemma FloatsAreNumbers(x: Double, y: Double)
    requires Finite(x) && Finite(y)
    ensures FloatEq(x, y) <==> Scaled(x) == Scaled(y)
    ensures FloatLess(x, y) <==> Scaled(x) < Scaled(y)
  {
    var m, n := x % SIGN, y % SIGN;
    assert m == if x < SIGN then x else x - SIGN;
    assert n == if y < SIGN then y else y - SIGN;
    assert Magnitude(0) == 0;
    if m < n { MagnitudeGrows(m, n); }
    if n < m { MagnitudeGrows(n, m); }
    if 0 < m { MagnitudeGrows(0, m); }
    if 0 < n { MagnitudeGrows(0, n); }
    hide Magnitude;
  }

  // ---- numbers ----

  /** The value of a number that has one. */
  function Amount(j: Json): Option<int> {
    match j
    case Int(i) => Some(i * UNITS)
    case Float(d) => if Finite(d) then Some(Scaled(d)) else None
    case _ => None
  }

  predicate IsNumber(j: Json) { j.Int? || j.Float? }

  /** Two numbers are numerically equal. An infinity, which no text spells, equals itself; a NaN equals nothing. */
  predicate SameNumber(a: Json, b: Json)
    requires IsNumber(a) && IsNumber(b)
  {
    if Amount(a).Some? || Amount(b).Some? then Amount(a) == Amount(b) else FloatEq(a.d, b.d)
  }

  lemma Cancels(i: int, j: int, p: nat)
    requires p > 0
    ensures i * p == j * p <==> i == j
  {
    if i < j { Apart(i, j, p); }
    if j < i { Apart(j, i, p); }
  }

  lemma Apart(i: int, j: int, p: nat)
    requires p > 0 && i < j
    ensures i * p < j * p
  {
    Positive(j - i, p);
    Distributes(j, i, p);
  }

  lemma Distributes(j: int, i: int, p: int)
    ensures (j - i) * p == j * p - i * p
  {
  }

  /** On numbers of one type the library's equality is the numeric one. */
  lemma SameTypeSameNumber(a: Json, b: Json)
    requires IsNumber(a) && IsNumber(b) && a.Int? == b.Int?
    ensures Eq(a, b) <==> SameNumber(a, b)
  {
    hide Pow2, Scaled, FloatEq;
    if a.Int? {
      Cancels(a.i, b.i, UNITS);
    } else if Finite(a.d) && Finite(b.d) {
      FloatsAreNumbers(a.d, b.d);
    } else if Finite(a.d) || Finite(b.d) {
      FiniteIsApart(a.d, b.d);
    }
  }

  lemma FiniteIsApart(x: Double, y: Double)
    requires Finite(x) != Finite(y)
    ensures !FloatEq(x, y)
  {
    assert x % SIGN == if x < SIGN then x else x - SIGN;
    assert y % SIGN == if y < SIGN then y else y - SIGN;
  }

  // ---- trees ----

  /** Equality as section 4.6 of RFC 6902 defines it: numbers by value, arrays by position, objects by name. */
  predicate RfcEq(a: Json, b: Json)
    decreases Size(a) + Size(b), 2, 0
  {
    if IsNumber(a) && IsNumber(b) then SameNumber(a, b)
    else
      match (a, b)
      case (Arr(x), Arr(y)) => |x| == |y| && RfcEqItems(a, b, 0)
      case (Obj(x), Obj(y)) => |x| == |y| && RfcEqEntries(a, b, 0)
      case _ => a == b
  }

  predicate RfcEqItems(a: Json, b: Json, i: nat)
    requires a.Arr? && b.Arr? && |a.items| == |b.items| && i <= |a.items|
    decreases Size(a) + Size(b), 1, |a.items| - i
  {
    i == |a.items| ||
    (ItemSmaller(a, 0, i); ItemSmaller(b, 0, i); RfcEq(a.items[i], b.items[i]) && RfcEqItems(a, b, i + 1))
  }

  predicate RfcEqEntries(a: Json, b: Json, i: nat)
    requires a.Obj? && b.Obj? && i <= |a.members|
    decreases Size(a) + Size(b), 1, |a.members| - i
  {
    i == |a.members| ||
    (var pos := FirstMatch(b.members, a.members[i].key);
     && pos < |b.members|
     && (MemberSmaller(a, 0, i); MemberSmaller(b, 0, pos); RfcEq(b.members[pos].value, a.members[i].value))
     && RfcEqEntries(a, b, i + 1))
  }

  lemma {:induction false} ItemsByPosition(a: Json, b: Json, i: nat)
    requires a.Arr? && b.Arr? && |a.items| == |b.items| && i <= |a.items|
    ensures RfcEqItems(a, b, i) <==> forall k :: i <= k < |a.items| ==> RfcEq(a.items[k], b.items[k])
    decreases |a.items| - i
  {
    hide RfcEq;
    if i < |a.items| { ItemsByPosition(a, b, i + 1); }
  }

  /** b has a member of the name of a's member i, with an equal value. */
  ghost predicate Matched(a: Json, b: Json, i: nat)
    requires a.Obj? && b.Obj? && i < |a.members|
  {
    exists j :: 0 <= j < |b.members| && b.members[j].key == a.members[i].key &&
      RfcEq(b.members[j].value, a.members[i].value)
  }

  lemma {:induction false} EntriesByName(a: Json, b: Json, i: nat)
    requires a.Obj? && b.Obj? && DistinctKeys(b.members) && i <= |a.members|
    ensures RfcEqEntries(a, b, i) <==> forall k :: i <= k < |a.members| ==> Matched(a, b, k)
    decreases |a.members| - i
  {
    hide RfcEq;
    if i < |a.members| {
      EntriesByName(a, b, i + 1);
      var pos := FirstMatch(b.members, a.members[i].key);
      assert pos < |b.members| && RfcEq(b.members[pos].value, a.members[i].value) <==> Matched(a, b, i);
    }
  }

  /** The three clauses of the standard on containers and numbers: what RfcEq comes to when names are distinct. */
  lemma RfcEqMeans(a: Json, b: Json)
    ensures IsNumber(a) && IsNumber(b) && Amount(a).Some? && Amount(b).Some? ==>
      (RfcEq(a, b) <==> Amount(a) == Amount(b))
    ensures a.Arr? && b.Arr? ==>
      (RfcEq(a, b) <==>
       |a.items| == |b.items| && forall k :: 0 <= k < |a.items| ==> RfcEq(a.items[k], b.items[k]))
    ensures a.Obj? && b.Obj? && DistinctKeys(b.members) ==>
      (RfcEq(a, b) <==>
       |a.members| == |b.members| && forall k :: 0 <= k < |a.members| ==> Matched(a, b, k))
  {
    hide RfcEqItems, RfcEqEntries, Matched, Amount;
    if a.Arr? && b.Arr? && |a.items| == |b.items| { ItemsByPosition(a, b, 0); }
    if a.Obj? && b.Obj? && |a.members| == |b.members| && DistinctKeys(b.members) { EntriesByName(a, b, 0); }
  }

  /** No integer meets a double: at no index and under no name that both trees have. */
  predicate Unmixed(a: Json, b: Json)
    decreases Size(a) + Size(b), 2, 0
  {
    match (a, b)
    case (Int(_), Float(_)) => false
    case (Float(_), Int(_)) => false
    case (Arr(x), Arr(y)) => UnmixedItems(a, b, 0)
    case (Obj(x), Obj(y)) => UnmixedEntries(a, b, 0)
    case _ => true
  }

  predicate UnmixedItems(a: Json, b: Json, i: nat)
    requires a.Arr? && b.Arr? && i <= |a.items|
    decreases Size(a) + Size(b), 1, |a.items| - i
  {
    i == |a.items| || i >= |b.items| ||
    (ItemSmaller(a, 0, i); ItemSmaller(b, 0, i); Unmixed(a.items[i], b.items[i]) && UnmixedItems(a, b, i + 1))
  }

  predicate UnmixedEntries(a: Json, b: Json, i: nat)
    requires a.Obj? && b.Obj? && i <= |a.members|
    decreases Size(a) + Size(b), 1, |a.members| - i
  {
    i == |a.members| ||
    (var pos := FirstMatch(b.members, a.members[i].key);
     && (pos == |b.members| ||
         (MemberSmaller(a, 0, i); MemberSmaller(b, 0, pos); Unmixed(b.members[pos].value, a.members[i].value)))
     && UnmixedEntries(a, b, i + 1))
  }

  /** The library's equality is numeric equality of two trees in which no integer meets a double. */
  lemma {:induction false} EqIsRfcEq(a: Json, b: Json)
    ensures Eq(a, b) <==> RfcEq(a, b) && Unmixed(a, b)
    decreases Size(a) + Size(b), 2, 0
  {
    hide SameNumber, EqItems, EqEntries, RfcEqItems, RfcEqEntries, UnmixedItems, UnmixedEntries, FloatEq, Size;
    if IsNumber(a) && IsNumber(b) && a.Int? == b.Int? {
      SameTypeSameNumber(a, b);
    } else if a.Arr? && b.Arr? && |a.items| == |b.items| {
      ItemsEqIsRfcEq(a, b, 0);
    } else if a.Obj? && b.Obj? && |a.members| == |b.members| {
      EntriesEqIsRfcEq(a, b, 0);
    }
  }

  lemma {:induction false} ItemsEqIsRfcEq(a: Json, b: Json, i: nat)
    requires a.Arr? && b.Arr? && |a.items| == |b.items| && i <= |a.items|
    ensures EqItems(a, b, i) <==> RfcEqItems(a, b, i) && UnmixedItems(a, b, i)
    decreases Size(a) + Size(b), 1, |a.items| - i
  {
    hide Eq, RfcEq, Unmixed, Size;
    if i < |a.items| {
      ItemSmaller(a, 0, i);
      ItemSmaller(b, 0, i);
      EqIsRfcEq(a.items[i], b.items[i]);
      ItemsEqIsRfcEq(a, b, i + 1);
    }
  }

  lemma {:induction false} EntriesEqIsRfcEq(a: Json, b: Json, i: nat)
    requires a.Obj? && b.Obj? && i <= |a.members|
    ensures EqEntries(a, b, i) <==> RfcEqEntries(a, b, i) && UnmixedEntries(a, b, i)
    decreases Size(a) + Size(b), 1, |a.members| - i
  {
    hide Eq, RfcEq, Unmixed;
    if i < |a.members| {
      var pos := FirstMatch(b.members, a.members[i].key);
      if pos < |b.members| {
        MemberSmaller(a, 0, i);
        MemberSmaller(b, 0, pos);
        EqIsRfcEq(b.members[pos].value, a.members[i].value);
      }
      EntriesEqIsRfcEq(a, b, i + 1);
    }
  }
}
