/**
 What operator< and hash64 mean, stated without their helper functions: the class order, the order within each class,
 and how far the hash sees the content of a value.
 */
module OrderMeaning {
  import opened Core
  import opened ByteOrder
  import opened JsonOrder
  import opened NumericEquality

  // ---- doubles ----

  /** The exponent field of a double. */
  function ExponentField(d: Double): nat { (d / 0x10_0000_0000_0000) % 0x800 }

  /** A NaN has all exponent bits set and a fraction, an infinity has them set and none. */
  lemma NanIs(d: Double)
    ensures IsNan(d) <==> ExponentField(d) == 0x7FF && d % 0x10_0000_0000_0000 != 0
    ensures Finite(d) <==> ExponentField(d) != 0x7FF
  {
    var e, f := d / 0x10_0000_0000_0000, d % 0x10_0000_0000_0000;
    assert d == e * 0x10_0000_0000_0000 + f;
    assert e < 0x1000;
    if e < 0x800 {
      assert e % 0x800 == e && d % SIGN == d;
    } else {
      assert e % 0x800 == e - 0x800 && d % SIGN == d - SIGN;
    }
  }

  const PLUS_INFINITY: Double := 0x7FF0_0000_0000_0000
  const MINUS_INFINITY: Double := 0xFFF0_0000_0000_0000

  /** Below every finite double minus infinity, above it plus infinity, above both a NaN. */
  lemma FloatEnds(d: Double, nan: Double)
    requires IsNan(nan)
    ensures Finite(d) ==> FloatLess(MINUS_INFINITY, d) && FloatLess(d, PLUS_INFINITY)
    ensures FloatLess(MINUS_INFINITY, PLUS_INFINITY)
    ensures FloatLess(d, nan) <==> !IsNan(d)
    ensures !FloatLess(nan, d)
  {
    assert d % SIGN == if d < SIGN then d else d - SIGN;
  }

  // ---- the class order ----

  /** Null, booleans, integers, doubles, strings, arrays, objects, in this order. */
  predicate ClassBefore(a: Json, b: Json) {
    match a
    case Null => !b.Null?
    case Bool(_) => b.Int? || b.Float? || b.Str? || b.Arr? || b.Obj?
    case Int(_) => b.Float? || b.Str? || b.Arr? || b.Obj?
    case Float(_) => b.Str? || b.Arr? || b.Obj?
    case Str(_) => b.Arr? || b.Obj?
    case Arr(_) => b.Obj?
    case Obj(_) => false
  }

  predicate SameClass(a: Json, b: Json) {
    && a.Null? == b.Null? && a.Bool? == b.Bool? && a.Int? == b.Int? && a.Float? == b.Float? && a.Str? == b.Str?
    && a.Arr? == b.Arr?
  }

  // ---- the order within a class ----

  ghost predicate Alike(a: Json, b: Json) { !Less(a, b) && !Less(b, a) }

  /** The arrays are alike up to k, where x ends first or has the smaller element. */
  ghost predicate ItemDecides(x: seq<Json>, y: seq<Json>, k: nat) {
    && k <= |x| && k < |y| && (forall i :: 0 <= i < k ==> Alike(x[i], y[i]))
    && (k == |x| || Less(x[k], y[k]))
  }

  /** The same for two objects in key order: the key decides first, then the value. */
  ghost predicate EntryDecides(x: seq<Member>, y: seq<Member>, k: nat) {
    && k <= |x| && k < |y| && (forall i :: 0 <= i < k ==> x[i].key == y[i].key && Alike(x[i].value, y[i].value))
    && (|| k == |x|
        || (exists i: nat :: SmallerAt(x[k].key, y[k].key, i))
        || (x[k].key == y[k].key && Less(x[k].value, y[k].value)))
  }

  ghost predicate LessWithin(a: Json, b: Json)
    requires SameClass(a, b)
  {
    match a
    case Null => false
    case Bool(x) => !x && b.b
    case Int(x) => x < b.i
    case Float(x) => FloatLess(x, b.d)
    case Str(x) => exists i: nat :: SmallerAt(x, b.s, i)
    case Arr(x) => exists k: nat :: ItemDecides(x, b.items, k)
    case Obj(x) => exists k: nat :: EntryDecides(SortMembers(x), SortMembers(b.members), k)
  }

  /** operator<, class first. */
  lemma LessMeans(a: Json, b: Json)
    ensures Less(a, b) <==> ClassBefore(a, b) || (SameClass(a, b) && LessWithin(a, b))
  {
    if SameClass(a, b) {
      match a
      case Str(x) => BytesLessMeans(x, b.s);
      case Arr(x) => ItemsMean(a, b, 0);
      case Obj(x) =>
        SortedEntries(a);
        SortedEntries(b);
        EntriesMean(a, b, SortMembers(x), SortMembers(b.members), 0);
      case _ =>
    }
  }

  lemma {:induction false} ItemsMean(a: Json, b: Json, i: nat)
    requires a.Arr? && b.Arr? && i <= |a.items| && i <= |b.items|
    requires forall k :: 0 <= k < i ==> Alike(a.items[k], b.items[k])
    ensures ItemsLess(a, b, i) <==> exists k: nat :: ItemDecides(a.items, b.items, k)
    decreases |a.items| - i
  {
    hide Less;
    var x, y := a.items, b.items;
    if i < |x| && i < |y| && Alike(x[i], y[i]) {
      ItemsMean(a, b, i + 1);
    } else {
      assert ItemsLess(a, b, i) <==> ItemDecides(x, y, i);
      forall k: nat | k != i ensures !ItemDecides(x, y, k) { NotBefore(x, y, i, k); }
    }
  }

  /** The first place where the two differ is the only one that can decide. */
  lemma NotBefore(x: seq<Json>, y: seq<Json>, i: nat, k: nat)
    requires i <= |x| && i <= |y| && k != i && (forall j :: 0 <= j < i ==> Alike(x[j], y[j]))
    requires i == |x| || i == |y| || !Alike(x[i], y[i])
    ensures !ItemDecides(x, y, k)
  {
    hide Less;
  }

  lemma {:induction false} EntriesMean(a: Json, b: Json, x: seq<Member>, y: seq<Member>, i: nat)
    requires EntriesOf(x, a) && EntriesOf(y, b) && i <= |x| && i <= |y|
    requires forall k :: 0 <= k < i ==> x[k].key == y[k].key && Alike(x[k].value, y[k].value)
    ensures EntriesLess(a, b, x, y, i) <==> exists k: nat :: EntryDecides(x, y, k)
    decreases |x| - i
  {
    hide Less, EntriesOf, BytesLess;
    if i < |x| && i < |y| { BytesLessMeans(x[i].key, y[i].key); }
    if i < |x| && i < |y| && x[i].key == y[i].key && Alike(x[i].value, y[i].value) {
      EqualKeys(x[i].key);
      EntriesMean(a, b, x, y, i + 1);
    } else {
      if i < |x| { EqualKeys(x[i].key); }
      assert EntriesLess(a, b, x, y, i) <==> EntryDecides(x, y, i);
      forall k: nat | k != i ensures !EntryDecides(x, y, k) { NoneBefore(x, y, i, k); }
    }
  }

  lemma EqualKeys(k: bytes)
    ensures forall i: nat :: !SmallerAt(k, k, i)
  {
  }

  lemma NoneBefore(x: seq<Member>, y: seq<Member>, i: nat, k: nat)
    requires i <= |x| && i <= |y| && k != i
    requires forall j :: 0 <= j < i ==> x[j].key == y[j].key && Alike(x[j].value, y[j].value)
    requires i == |x| || i == |y| || x[i].key != y[i].key || !Alike(x[i].value, y[i].value)
    ensures !EntryDecides(x, y, k)
  {
    hide Less, SmallerAt;
    if k < i { EqualKeys(x[k].key); }
  }

  // ---- the hash ----

  /** Bit i of a word. */
  predicate Bit(w: Word, i: nat)
    decreases i
  {
    if i == 0 then w % 2 == 1 else Bit(w / 2, i - 1)
  }

  /** Xor is the bitwise exclusive or. */
  lemma {:induction false} XorBits(a: Word, b: Word, i: nat)
    ensures Bit(Xor(a, b), i) <==> Bit(a, i) != Bit(b, i)
    decreases i
  {
    if i > 0 {
      XorHalves(a, b);
      XorBits(a / 2, b / 2, i - 1);
    } else {
      XorHalves(a, b);
    }
  }

  lemma XorHalves(a: Word, b: Word)
    ensures Xor(a, b) / 2 == Xor(a / 2, b / 2) && (Xor(a, b) % 2 == 1 <==> a % 2 != b % 2)
  {
    if a == 0 && b == 0 { assert Xor(0, 0) == 0; }
  }

  lemma {:induction false} XorFits(a: Word, b: Word, n: nat)
    requires a < Pow2(n) && b < Pow2(n)
    ensures Xor(a, b) < Pow2(n)
    decreases n
  {
    if n > 0 && !(a == 0 && b == 0) { XorFits(a / 2, b / 2, n - 1); }
  }

  lemma {:induction false} XorCancels(a: Word, b: Word, c: Word)
    requires Xor(a, b) == Xor(a, c)
    ensures b == c
    decreases a + b + c
  {
    XorHalves(a, b);
    XorHalves(a, c);
    if a + b + c > 0 {
      XorCancels(a / 2, b / 2, c / 2);
      assert b == 2 * (b / 2) + b % 2 && c == 2 * (c / 2) + c % 2;
    }
  }

  lemma {:induction false} XorCommutes(a: Word, b: Word)
    ensures Xor(a, b) == Xor(b, a)
    decreases a + b
  {
    if a + b > 0 { XorCommutes(a / 2, b / 2); }
  }

  /** Both mixers yield words, and the one on words is injective. */
  ghost predicate Injective(mx: Mixer) {
    && (forall u: Word :: u < WORDS ==> mx.mix(u) < WORDS)
    && (forall k: bytes :: mx.fnv(k) < WORDS)
    && (forall u: Word, v: Word :: u < WORDS && v < WORDS && mx.mix(u) == mx.mix(v) ==> u == v)
  }

  lemma WordXor(a: Word, b: Word)
    requires a < WORDS && b < WORDS
    ensures Xor(a, b) < WORDS
  {
    hide Xor;
    WordsArePow2();
    XorFits(a, b, 64);
  }

  lemma WordsArePow2()
    ensures Pow2(64) == WORDS
  {
    assert Pow2(16) == 0x1_0000 by {
      assert Pow2(8) == 0x100;
      Pow2Adds(8, 8);
    }
    Pow2Adds(16, 16);
    Pow2Adds(32, 32);
    hide Pow2;
  }

  lemma {:induction false} HashFits(mx: Mixer, j: Json)
    requires Injective(mx)
    ensures Hash(mx, j) < WORDS
    decreases j, 1
  {
    hide Xor;
    match j
    case Bool(b) => WordXor(mx.mix(1), if b then 1 else 0);
    case Int(i) => WordXor(mx.mix(2), IntBits(i));
    case Float(d) => WordXor(mx.mix(3), DoubleBits(d));
    case Str(s) => WordXor(mx.mix(4), mx.fnv(s));
    case Arr(items) => ItemsHashFits(mx, j, |items|);
    case Obj(ms) => MembersHashFits(mx, j, |ms|);
    case Null =>
  }

  lemma {:induction false} ItemsHashFits(mx: Mixer, j: Json, n: nat)
    requires Injective(mx) && j.Arr? && n <= |j.items|
    ensures HashItems(mx, j, n) < WORDS
    decreases j, 0, n
  {
    hide Xor, Hash;
    if n > 0 {
      ItemsHashFits(mx, j, n - 1);
      HashFits(mx, j.items[n - 1]);
      WordXor(HashItems(mx, j, n - 1), Hash(mx, j.items[n - 1]));
    }
  }

  lemma MembersHashFits(mx: Mixer, j: Json, n: nat)
    requires Injective(mx) && j.Obj? && n <= |j.members|
    ensures HashMembers(mx, j, n) < WORDS
  {
    hide Hash, Term;
  }

  /** The hash sees the payload of a scalar: on two of one class it is equal only if their words are. */
  lemma HashSeesScalar(mx: Mixer, a: Json, b: Json)
    requires Injective(mx) && SameClass(a, b) && Hash(mx, a) == Hash(mx, b)
    ensures a.Bool? || a.Int? ==> a == b
    ensures a.Float? ==> a == b || FloatEq(a.d, b.d)
    ensures a.Str? ==> mx.fnv(a.s) == mx.fnv(b.s)
  {
    hide Xor;
    match a
    case Bool(x) => XorCancels(mx.mix(1), if x then 1 else 0, if b.b then 1 else 0);
    case Int(i) => XorCancels(mx.mix(2), IntBits(i), IntBits(b.i));
    case Float(d) => XorCancels(mx.mix(3), DoubleBits(d), DoubleBits(b.d));
    case Str(s) => XorCancels(mx.mix(4), mx.fnv(s), mx.fnv(b.s));
    case _ =>
  }

  lemma MixDiffers(mx: Mixer, u: Word, v: Word, h: Word, g: Word)
    requires Injective(mx) && u < WORDS && v < WORDS && h < WORDS && g < WORDS
    requires (u == v && h != g) || (u != v && h == g)
    ensures mx.mix(Xor(u, h)) != mx.mix(Xor(v, g))
  {
    hide Xor;
    WordXor(u, h);
    WordXor(v, g);
    if Xor(u, h) == Xor(v, g) {
      if u == v {
        XorCancels(u, h, g);
      } else {
        XorCommutes(u, h);
        XorCommutes(v, h);
        XorCancels(h, u, v);
      }
    }
  }

  /** Two arrays that differ at index k only, in the hash of the element there, have different hashes. */
  lemma {:induction false} HashSeesItem(mx: Mixer, a: Json, b: Json, k: nat, n: nat)
    requires Injective(mx) && a.Arr? && b.Arr? && k < |a.items| == |b.items| && n <= |a.items|
    requires forall i :: 0 <= i < |a.items| && i != k ==> a.items[i] == b.items[i]
    requires Hash(mx, a.items[k]) != Hash(mx, b.items[k])
    ensures HashItems(mx, a, n) == HashItems(mx, b, n) <==> n <= k
    decreases n
  {
    hide Xor, Hash, Injective;
    if n > 0 {
      HashSeesItem(mx, a, b, k, n - 1);
      ItemsHashFits(mx, a, n - 1);
      ItemsHashFits(mx, b, n - 1);
      HashFits(mx, a.items[n - 1]);
      HashFits(mx, b.items[n - 1]);
      if n > k {
        var h, g := Hash(mx, a.items[n - 1]), Hash(mx, b.items[n - 1]);
        MixDiffers(mx, HashItems(mx, a, n - 1), HashItems(mx, b, n - 1), h, g);
      }
    }
  }

  lemma TermDiffers(mx: Mixer, k: bytes, l: bytes, h: Word, g: Word)
    requires Injective(mx) && h < WORDS && g < WORDS
    requires (k == l && h != g) || (mx.fnv(k) != mx.fnv(l) && h == g)
    ensures Term(mx, k, h) != Term(mx, l, g) && Term(mx, k, h) < WORDS && Term(mx, l, g) < WORDS
  {
    hide Xor;
    AddCancels(h, g, GOLDEN);
    MixDiffers(mx, mx.fnv(k), mx.fnv(l), Add(h, GOLDEN), Add(g, GOLDEN));
    WordXor(mx.fnv(k), Add(h, GOLDEN));
    WordXor(mx.fnv(l), Add(g, GOLDEN));
  }

  lemma AddCancels(a: Word, b: Word, c: Word)
    requires a < WORDS && b < WORDS && c < WORDS
    ensures Add(a, c) == Add(b, c) <==> a == b
    ensures Add(c, a) == Add(c, b) <==> a == b
  {
    assert Add(a, c) == if a + c < WORDS then a + c else a + c - WORDS;
    assert Add(b, c) == if b + c < WORDS then b + c else b + c - WORDS;
  }

  /** Two objects that differ at entry k only, in the hash of its value or in that of its key, have different hashes. */
  lemma {:induction false} HashSeesMember(mx: Mixer, a: Json, b: Json, k: nat, n: nat)
    requires Injective(mx) && a.Obj? && b.Obj? && k < |a.members| == |b.members| && n <= |a.members|
    requires forall i :: 0 <= i < |a.members| && i != k ==> a.members[i] == b.members[i]
    requires var x, y := a.members[k], b.members[k];
      || (x.key == y.key && Hash(mx, x.value) != Hash(mx, y.value))
      || (mx.fnv(x.key) != mx.fnv(y.key) && x.value == y.value)
    ensures HashMembers(mx, a, n) == HashMembers(mx, b, n) <==> n <= k
    decreases n
  {
    hide Xor, Hash, Injective, Term, Add;
    if n > 0 {
      var x, y := a.members[n - 1], b.members[n - 1];
      HashSeesMember(mx, a, b, k, n - 1);
      MembersHashFits(mx, a, n - 1);
      MembersHashFits(mx, b, n - 1);
      HashFits(mx, x.value);
      HashFits(mx, y.value);
      if n - 1 == k { TermDiffers(mx, x.key, y.key, Hash(mx, x.value), Hash(mx, y.value)); }
      TermFits(mx, x.key, Hash(mx, x.value));
      TermFits(mx, y.key, Hash(mx, y.value));
      AddCancels(HashMembers(mx, a, n - 1), HashMembers(mx, b, n - 1), Term(mx, x.key, Hash(mx, x.value)));
      AddCancels(Term(mx, x.key, Hash(mx, x.value)), Term(mx, y.key, Hash(mx, y.value)), HashMembers(mx, a, n - 1));
    }
  }

  lemma TermFits(mx: Mixer, k: bytes, h: Word)
    requires Injective(mx) && h < WORDS
    ensures Term(mx, k, h) < WORDS
  {
    hide Xor;
    WordXor(mx.fnv(k), Add(h, GOLDEN));
  }
}
