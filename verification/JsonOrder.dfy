/**
 Equality, ordering and hashing of trees, each written out as the library writes it: order-insensitive object
 equality by first match, a canonical key-sorted order, and a commutative hash fold.
 */
module JsonOrder {
  import opened Core
  import opened ByteOrder

  // ---- sizes, for termination of the two-sided comparisons ----

  function Size(j: Json): (n: nat)
    ensures n > 0
    decreases j, 1
  {
    match j
    case Arr(items) => 1 + SizeItems(j, 0)
    case Obj(ms) => 1 + SizeMembers(j, 0)
    case _ => 1
  }

  function SizeItems(j: Json, i: nat): nat
    requires j.Arr? && i <= |j.items|
    decreases j, 0, |j.items| - i
  {
    if i == |j.items| then 0 else Size(j.items[i]) + SizeItems(j, i + 1)
  }

  function SizeMembers(j: Json, i: nat): nat
    requires j.Obj? && i <= |j.members|
    decreases j, 0, |j.members| - i
  {
    if i == |j.members| then 0 else Size(j.members[i].value) + SizeMembers(j, i + 1)
  }

  lemma {:induction false} ItemSmaller(j: Json, i: nat, k: nat)
    requires j.Arr? && i <= k < |j.items|
    ensures Size(j.items[k]) <= SizeItems(j, i) < Size(j) + (if i == 0 then 0 else SizeItems(j, i) + 1)
    decreases k - i
  {
    if i < k { ItemSmaller(j, i + 1, k); }
  }

  lemma {:induction false} MemberSmaller(j: Json, i: nat, k: nat)
    requires j.Obj? && i <= k < |j.members|
    ensures Size(j.members[k].value) <= SizeMembers(j, i)
    decreases k - i
  {
    if i < k { MemberSmaller(j, i + 1, k); }
  }

  /** The entries are some of j's entries. */
  ghost predicate EntriesOf(es: seq<Member>, j: Json) {
    j.Obj? && forall m :: m in es ==> m in j.members
  }

  lemma EntrySmaller(es: seq<Member>, j: Json, i: nat)
    requires EntriesOf(es, j) && i < |es|
    ensures Size(es[i].value) < Size(j)
  {
    assert es[i] in j.members;
    var k :| 0 <= k < |j.members| && j.members[k] == es[i];
    MemberSmaller(j, 0, k);
  }

  lemma SortedEntries(j: Json)
    requires j.Obj?
    ensures EntriesOf(SortMembers(j.members), j)
  {
    forall m | m in SortMembers(j.members) ensures m in j.members {
      assert m in multiset(SortMembers(j.members));
    }
  }

  // ---- doubles ----

  const SIGN: int := 0x8000_0000_0000_0000
  const INF: int := 0x7FF0_0000_0000_0000

  predicate IsNan(d: Double) { d % SIGN > INF }

  /** Sign and magnitude as one integer: the numeric order of non-NaN doubles, both zeros at 0. */
  function Rank64(d: Double): int { if d < SIGN then d else SIGN - d }

  predicate FloatEq(a: Double, b: Double) { !IsNan(a) && !IsNan(b) && Rank64(a) == Rank64(b) }

  /** float_less: NaN is the maximum. */
  predicate FloatLess(a: Double, b: Double) {
    if IsNan(a) then false else if IsNan(b) then true else Rank64(a) < Rank64(b)
  }

  function Rank(j: Json): nat {
    match j
    case Null => 0
    case Bool(_) => 1
    case Int(_) => 2
    case Float(_) => 3
    case Str(_) => 4
    case Arr(_) => 5
    case Obj(_) => 6
  }

  // ---- operator== ----

  predicate Eq(a: Json, b: Json)
    decreases Size(a) + Size(b), 2, 0
  {
    match (a, b)
    case (Null, Null) => true
    case (Bool(x), Bool(y)) => x == y
    case (Int(x), Int(y)) => x == y
    case (Float(x), Float(y)) => FloatEq(x, y)
    case (Str(x), Str(y)) => x == y
    case (Arr(x), Arr(y)) => |x| == |y| && EqItems(a, b, 0)
    case (Obj(x), Obj(y)) => |x| == |y| && EqEntries(a, b, 0)
    case _ => false
  }

  predicate EqItems(a: Json, b: Json, i: nat)
    requires a.Arr? && b.Arr? && |a.items| == |b.items| && i <= |a.items|
    decreases Size(a) + Size(b), 1, |a.items| - i
  {
    i == |a.items| ||
    (ItemSmaller(a, 0, i); ItemSmaller(b, 0, i); Eq(a.items[i], b.items[i]) && EqItems(a, b, i + 1))
  }

  /** Every entry of a from i on is found in b, by first match, with an equal value. */
  predicate EqEntries(a: Json, b: Json, i: nat)
    requires a.Obj? && b.Obj? && i <= |a.members|
    decreases Size(a) + Size(b), 1, |a.members| - i
  {
    i == |a.members| ||
    (var pos := FirstMatch(b.members, a.members[i].key);
     && pos < |b.members|
     && (MemberSmaller(a, 0, i); MemberSmaller(b, 0, pos); Eq(b.members[pos].value, a.members[i].value))
     && EqEntries(a, b, i + 1))
  }

  // ---- operator< ----

  predicate Less(a: Json, b: Json)
    decreases Size(a) + Size(b), 2, 0
  {
    if Rank(a) != Rank(b) then Rank(a) < Rank(b)
    else
      match a
      case Null => false
      case Bool(x) => !x && b.b
      case Int(x) => x < b.i
      case Float(x) => FloatLess(x, b.d)
      case Str(x) => BytesLess(x, b.s)
      case Arr(_) => ItemsLess(a, b, 0)
      case Obj(_) =>
        SortedEntries(a);
        SortedEntries(b);
        EntriesLess(a, b, SortMembers(a.members), SortMembers(b.members), 0)
  }

  /** array_less from element i on. */
  predicate ItemsLess(a: Json, b: Json, i: nat)
    requires a.Arr? && b.Arr? && i <= |a.items| && i <= |b.items|
    decreases Size(a) + Size(b), 1, |a.items| - i
  {
    if i == |a.items| || i == |b.items| then |a.items| < |b.items|
    else
      ItemSmaller(a, 0, i);
      ItemSmaller(b, 0, i);
      if Less(a.items[i], b.items[i]) then true
      else if Less(b.items[i], a.items[i]) then false
      else ItemsLess(a, b, i + 1)
  }

  /** object_less from sorted entry i on. */
  predicate EntriesLess(a: Json, b: Json, pa: seq<Member>, pb: seq<Member>, i: nat)
    requires EntriesOf(pa, a) && EntriesOf(pb, b) && i <= |pa| && i <= |pb|
    decreases Size(a) + Size(b), 1, |pa| - i
  {
    if i == |pa| || i == |pb| then |pa| < |pb|
    else if pa[i].key != pb[i].key then BytesLess(pa[i].key, pb[i].key)
    else
      EntrySmaller(pa, a, i);
      EntrySmaller(pb, b, i);
      if Less(pa[i].value, pb[i].value) then true
      else if Less(pb[i].value, pa[i].value) then false
      else EntriesLess(a, b, pa, pb, i + 1)
  }

  // ---- hash64 ----

  /** A 64-bit word as a number. */
  type Word = nat

  const WORDS: int := 0x1_0000_0000_0000_0000

  /** The two mixers, uninterpreted: splitmix64 and fnv1a64. */
  datatype Mixer = Mixer(mix: Word -> Word, fnv: bytes -> Word)

  const GOLDEN: Word := 0x9e37_79b9_7f4a_7c15

  function Xor(a: Word, b: Word): Word {
    if a == 0 && b == 0 then 0 else 2 * Xor(a / 2, b / 2) + (if a % 2 != b % 2 then 1 else 0)
  }

  function Add(a: Word, b: Word): Word { (a + b) % WORDS }

  function IntBits(i: int64): Word { if i < 0 then i + WORDS else i }

  /** -0.0 folds to +0.0. */
  function DoubleBits(d: Double): Word { if d == SIGN then 0 else d }

  function Hash(mx: Mixer, j: Json): Word
    decreases j, 1
  {
    match j
    case Null => mx.mix(0)
    case Bool(x) => Xor(mx.mix(1), if x then 1 else 0)
    case Int(i) => Xor(mx.mix(2), IntBits(i))
    case Float(d) => Xor(mx.mix(3), DoubleBits(d))
    case Str(s) => Xor(mx.mix(4), mx.fnv(s))
    case Arr(items) => HashItems(mx, j, |items|)
    case Obj(ms) => HashMembers(mx, j, |ms|)
  }

  /** The ordered fold over the first n elements. */
  function HashItems(mx: Mixer, j: Json, n: nat): Word
    requires j.Arr? && n <= |j.items|
    decreases j, 0, n
  {
    if n == 0 then mx.mix(5) else mx.mix(Xor(HashItems(mx, j, n - 1), Hash(mx, j.items[n - 1])))
  }

  /** One entry's contribution. */
  function Term(mx: Mixer, key: bytes, h: Word): Word { mx.mix(Xor(mx.fnv(key), Add(h, GOLDEN))) }

  /** The additive fold over the first n entries. */
  function HashMembers(mx: Mixer, j: Json, n: nat): Word
    requires j.Obj? && n <= |j.members|
    decreases j, 0, n
  {
    if n == 0 then mx.mix(6)
    else Add(HashMembers(mx, j, n - 1), Term(mx, j.members[n - 1].key, Hash(mx, j.members[n - 1].value)))
  }

  // ---- the loops ----

  method LessThan(a: Json, b: Json) returns (r: bool)
    ensures r == Less(a, b)
    decreases Size(a) + Size(b), 1
  {
    if Rank(a) != Rank(b) {
      return Rank(a) < Rank(b);
    }
    match a {
      case Null => return false;
      case Bool(x) => return !x && b.b;
      case Int(x) => return x < b.i;
      case Float(x) => return FloatLess(x, b.d);
      case Str(x) => return BytesLess(x, b.s);
      case Arr(_) => r := ArrayLess(a, b);
      case Obj(_) => r := ObjectLess(a, b);
    }
  }

  method ArrayLess(a: Json, b: Json) returns (r: bool)
    requires a.Arr? && b.Arr?
    ensures r == ItemsLess(a, b, 0)
    decreases Size(a) + Size(b), 0
  {
    var n := if |a.items| < |b.items| then |a.items| else |b.items|;
    var i := 0;
    while i < n
      invariant i <= n && ItemsLess(a, b, 0) == ItemsLess(a, b, i)
    {
      ItemSmaller(a, 0, i);
      ItemSmaller(b, 0, i);
      var lt := LessThan(a.items[i], b.items[i]);
      if lt {
        return true;
      }
      var gt := LessThan(b.items[i], a.items[i]);
      if gt {
        return false;
      }
      i := i + 1;
    }
    return |a.items| < |b.items|;
  }

  method ObjectLess(a: Json, b: Json) returns (r: bool)
    requires a.Obj? && b.Obj?
    ensures EntriesOf(SortMembers(a.members), a) && EntriesOf(SortMembers(b.members), b)
    ensures r == EntriesLess(a, b, SortMembers(a.members), SortMembers(b.members), 0)
    decreases Size(a) + Size(b), 0
  {
    hide SortMembers, Less, BytesLess, Size;
    var pa, pb := SortMembers(a.members), SortMembers(b.members);
    SortedEntries(a);
    SortedEntries(b);
    var n := if |pa| < |pb| then |pa| else |pb|;
    var i := 0;
    while i < n
      invariant i <= n && EntriesLess(a, b, pa, pb, 0) == EntriesLess(a, b, pa, pb, i)
    {
      if pa[i].key != pb[i].key {
        return BytesLess(pa[i].key, pb[i].key);
      }
      EntrySmaller(pa, a, i);
      EntrySmaller(pb, b, i);
      var lt := LessThan(pa[i].value, pb[i].value);
      if lt {
        return true;
      }
      var gt := LessThan(pb[i].value, pa[i].value);
      if gt {
        return false;
      }
      i := i + 1;
    }
    return |pa| < |pb|;
  }

  method Hash64(mx: Mixer, j: Json) returns (h: Word)
    ensures h == Hash(mx, j)
    decreases j, 1
  {
    hide Xor, HashItems, HashMembers;
    match j {
      case Null => return mx.mix(0);
      case Bool(x) => return Xor(mx.mix(1), if x then 1 else 0);
      case Int(i) => return Xor(mx.mix(2), IntBits(i));
      case Float(d) => return Xor(mx.mix(3), DoubleBits(d));
      case Str(s) => return Xor(mx.mix(4), mx.fnv(s));
      case Arr(_) => h := HashArray(mx, j);
      case Obj(_) => h := HashObject(mx, j);
    }
  }

  method HashArray(mx: Mixer, j: Json) returns (h: Word)
    requires j.Arr?
    ensures h == HashItems(mx, j, |j.items|)
    decreases j, 0
  {
    hide Hash, Xor;
    h := mx.mix(5);
    for k := 0 to |j.items|
      invariant h == HashItems(mx, j, k)
    {
      var e := Hash64(mx, j.items[k]);
      h := mx.mix(Xor(h, e));
    }
  }

  method HashObject(mx: Mixer, j: Json) returns (h: Word)
    requires j.Obj?
    ensures h == HashMembers(mx, j, |j.members|)
    decreases j, 0
  {
    hide Hash, Term, Add;
    h := mx.mix(6);
    for k := 0 to |j.members|
      invariant h == HashMembers(mx, j, k)
    {
      var e := Hash64(mx, j.members[k].value);
      var t := MixEntry(mx, j.members[k].key, e);
      h := Add(h, t);
    }
  }

  method MixEntry(mx: Mixer, key: bytes, e: Word) returns (t: Word)
    ensures t == Term(mx, key, e)
  {
    t := mx.mix(Xor(mx.fnv(key), Add(e, GOLDEN)));
  }
}
