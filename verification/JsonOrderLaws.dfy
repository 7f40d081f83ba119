/**
 The laws that tie equality, ordering and hashing together: `<` is a strict weak order (NaN included), without NaN
 neither-less is exactly `==`, `==` is symmetric, and equal trees hash alike whatever the entry order.
 */
module JsonOrderLaws {
  import opened Core
  import opened ByteOrder
  import opened JsonOrder

  // ---- a three-way reference comparison ----

  function Sign(x: int): int { if x < 0 then -1 else if x > 0 then 1 else 0 }

  function BytesCmp(a: bytes, b: bytes): int { if BytesLess(a, b) then -1 else if BytesLess(b, a) then 1 else 0 }

  function FloatKey(d: Double): int { if IsNan(d) then WORDS else Rank64(d) }

  function BoolKey(b: bool): int { if b then 1 else 0 }

  function Cmp(a: Json, b: Json): int
    decreases Size(a) + Size(b), 2, 0
  {
    if Rank(a) != Rank(b) then Sign(Rank(a) - Rank(b))
    else
      match a
      case Null => 0
      case Bool(x) => Sign(BoolKey(x) - BoolKey(b.b))
      case Int(x) => Sign(x - b.i)
      case Float(x) => Sign(FloatKey(x) - FloatKey(b.d))
      case Str(x) => BytesCmp(x, b.s)
      case Arr(_) => CmpItems(a, b, 0)
      case Obj(_) =>
        SortedEntries(a);
        SortedEntries(b);
        CmpEntries(a, b, SortMembers(a.members), SortMembers(b.members), 0)
  }

  function CmpItems(a: Json, b: Json, i: nat): int
    requires a.Arr? && b.Arr? && i <= |a.items| && i <= |b.items|
    decreases Size(a) + Size(b), 1, |a.items| - i
  {
    if i == |a.items| || i == |b.items| then Sign(|a.items| - |b.items|)
    else
      ItemSmaller(a, 0, i);
      ItemSmaller(b, 0, i);
      var c := Cmp(a.items[i], b.items[i]);
      if c != 0 then c else CmpItems(a, b, i + 1)
  }

  function CmpEntries(a: Json, b: Json, pa: seq<Member>, pb: seq<Member>, i: nat): int
    requires EntriesOf(pa, a) && EntriesOf(pb, b) && i <= |pa| && i <= |pb|
    decreases Size(a) + Size(b), 1, |pa| - i
  {
    if i == |pa| || i == |pb| then Sign(|pa| - |pb|)
    else if pa[i].key != pb[i].key then BytesCmp(pa[i].key, pb[i].key)
    else
      EntrySmaller(pa, a, i);
      EntrySmaller(pb, b, i);
      var c := Cmp(pa[i].value, pb[i].value);
      if c != 0 then c else CmpEntries(a, b, pa, pb, i + 1)
  }

  lemma BytesCmpLaws(a: bytes, b: bytes)
    ensures BytesCmp(b, a) == -BytesCmp(a, b) && (BytesCmp(a, b) == 0 <==> a == b)
  {
    BytesTotal(a, b);
  }

  lemma BytesCmpTransitive(a: bytes, b: bytes, c: bytes)
    requires BytesCmp(a, b) <= 0 && BytesCmp(b, c) <= 0
    ensures BytesCmp(a, c) <= 0 && (BytesCmp(a, c) == 0 ==> a == b == c)
  {
    BytesTotal(a, b);
    BytesTotal(b, c);
    BytesTotal(a, c);
    if a != b && b != c { BytesTransitive(a, b, c); }
  }

  lemma FloatLessIsKey(x: Double, y: Double)
    ensures FloatLess(x, y) <==> FloatKey(x) < FloatKey(y)
    ensures !IsNan(x) && !IsNan(y) ==> (FloatEq(x, y) <==> FloatKey(x) == FloatKey(y))
  {
  }

  // ---- the library's order is the reference comparison ----

  lemma {:induction false} LessIsCmp(a: Json, b: Json)
    ensures Less(a, b) <==> Cmp(a, b) < 0
    ensures Less(b, a) <==> Cmp(a, b) > 0
    decreases Size(a) + Size(b), 2, 0
  {
    if Rank(a) == Rank(b) {
      match a
      case Float(x) => FloatLessIsKey(x, b.d); FloatLessIsKey(b.d, x);
      case Str(x) => BytesTotal(x, b.s);
      case Arr(_) => ItemsLessIsCmp(a, b, 0);
      case Obj(_) =>
        SortedEntries(a);
        SortedEntries(b);
        EntriesLessIsCmp(a, b, SortMembers(a.members), SortMembers(b.members), 0);
      case _ =>
    }
  }

  lemma {:induction false} ItemsLessIsCmp(a: Json, b: Json, i: nat)
    requires a.Arr? && b.Arr? && i <= |a.items| && i <= |b.items|
    ensures ItemsLess(a, b, i) <==> CmpItems(a, b, i) < 0
    ensures ItemsLess(b, a, i) <==> CmpItems(a, b, i) > 0
    decreases Size(a) + Size(b), 1, |a.items| - i
  {
    if i < |a.items| && i < |b.items| {
      ItemSmaller(a, 0, i);
      ItemSmaller(b, 0, i);
      LessIsCmp(a.items[i], b.items[i]);
      ItemsLessIsCmp(a, b, i + 1);
      hide Less, Cmp;
    }
  }

  lemma {:induction false} EntriesLessIsCmp(a: Json, b: Json, pa: seq<Member>, pb: seq<Member>, i: nat)
    requires EntriesOf(pa, a) && EntriesOf(pb, b) && i <= |pa| && i <= |pb|
    ensures EntriesLess(a, b, pa, pb, i) <==> CmpEntries(a, b, pa, pb, i) < 0
    ensures EntriesLess(b, a, pb, pa, i) <==> CmpEntries(a, b, pa, pb, i) > 0
    decreases Size(a) + Size(b), 1, |pa| - i
  {
    hide Less, Cmp;
    if i < |pa| && i < |pb| {
      BytesTotal(pa[i].key, pb[i].key);
      EntrySmaller(pa, a, i);
      EntrySmaller(pb, b, i);
      if pa[i].key == pb[i].key {
        LessIsCmp(pa[i].value, pb[i].value);
        EntriesLessIsCmp(a, b, pa, pb, i + 1);
      }
    }
  }

  // ---- the reference comparison is a total preorder ----

  lemma {:induction false} CmpSelf(a: Json)
    ensures Cmp(a, a) == 0
    decreases Size(a), 2, 0
  {
    match a
    case Str(x) => BytesTotal(x, x);
    case Arr(_) => CmpSelfItems(a, 0);
    case Obj(_) =>
      SortedEntries(a);
      CmpSelfEntries(a, SortMembers(a.members), 0);
    case _ =>
  }

  lemma {:induction false} CmpSelfItems(a: Json, i: nat)
    requires a.Arr? && i <= |a.items|
    ensures CmpItems(a, a, i) == 0
    decreases Size(a), 1, |a.items| - i
  {
    hide Cmp;
    if i < |a.items| {
      ItemSmaller(a, 0, i);
      CmpSelf(a.items[i]);
      CmpSelfItems(a, i + 1);
    }
  }

  lemma {:induction false} CmpSelfEntries(a: Json, pa: seq<Member>, i: nat)
    requires EntriesOf(pa, a) && i <= |pa|
    ensures CmpEntries(a, a, pa, pa, i) == 0
    decreases Size(a), 1, |pa| - i
  {
    hide Cmp;
    if i < |pa| {
      EntrySmaller(pa, a, i);
      CmpSelf(pa[i].value);
      CmpSelfEntries(a, pa, i + 1);
    }
  }

  predicate Chains(ab: int, bc: int, ac: int) {
    ab <= 0 && bc <= 0 ==> ac <= 0 && (ac == 0 ==> ab == 0 && bc == 0)
  }

  lemma {:induction false} CmpChains(a: Json, b: Json, c: Json)
    ensures Chains(Cmp(a, b), Cmp(b, c), Cmp(a, c))
    decreases Size(a) + Size(b) + Size(c), 2, 0
  {
    if Rank(a) == Rank(b) == Rank(c) {
      match a
      case Str(x) => if BytesCmp(x, b.s) <= 0 && BytesCmp(b.s, c.s) <= 0 {
        BytesCmpTransitive(x, b.s, c.s);
        BytesTotal(x, x);
      }
      case Arr(_) => ItemsChain(a, b, c, 0);
      case Obj(_) =>
        SortedEntries(a);
        SortedEntries(b);
        SortedEntries(c);
        EntriesChain(a, b, c, SortMembers(a.members), SortMembers(b.members), SortMembers(c.members), 0);
      case _ =>
    }
  }

  lemma {:induction false} ItemsChain(a: Json, b: Json, c: Json, i: nat)
    requires a.Arr? && b.Arr? && c.Arr? && i <= |a.items| && i <= |b.items| && i <= |c.items|
    ensures Chains(CmpItems(a, b, i), CmpItems(b, c, i), CmpItems(a, c, i))
    decreases Size(a) + Size(b) + Size(c), 1, |a.items| - i
  {
    hide Cmp;
    if i < |a.items| && i < |b.items| && i < |c.items| {
      ItemSmaller(a, 0, i);
      ItemSmaller(b, 0, i);
      ItemSmaller(c, 0, i);
      CmpChains(a.items[i], b.items[i], c.items[i]);
      ItemsChain(a, b, c, i + 1);
    }
  }

  lemma {:induction false} EntriesChain(a: Json, b: Json, c: Json, pa: seq<Member>, pb: seq<Member>, pc: seq<Member>,
      i: nat)
    requires EntriesOf(pa, a) && EntriesOf(pb, b) && EntriesOf(pc, c) && i <= |pa| && i <= |pb| && i <= |pc|
    ensures Chains(CmpEntries(a, b, pa, pb, i), CmpEntries(b, c, pb, pc, i), CmpEntries(a, c, pa, pc, i))
    decreases Size(a) + Size(b) + Size(c), 1, |pa| - i
  {
    hide Cmp, BytesCmp;
    if i < |pa| && i < |pb| && i < |pc| {
      KeysChain(pa[i].key, pb[i].key, pc[i].key);
      EntrySmaller(pa, a, i);
      EntrySmaller(pb, b, i);
      EntrySmaller(pc, c, i);
      if pa[i].key == pb[i].key == pc[i].key {
        CmpChains(pa[i].value, pb[i].value, pc[i].value);
        EntriesChain(a, b, c, pa, pb, pc, i + 1);
      }
    }
  }

  lemma KeysChain(x: bytes, y: bytes, z: bytes)
    ensures Chains(BytesCmp(x, y), BytesCmp(y, z), BytesCmp(x, z))
    ensures (BytesCmp(x, y) == 0 <==> x == y) && (BytesCmp(y, z) == 0 <==> y == z) && (BytesCmp(x, z) == 0 <==> x == z)
  {
    BytesCmpLaws(x, y);
    BytesCmpLaws(y, z);
    BytesCmpLaws(x, z);
    if BytesCmp(x, y) <= 0 && BytesCmp(y, z) <= 0 { BytesCmpTransitive(x, y, z); }
  }

  /** `<` is a strict weak order on all trees, NaN included. */
  lemma StrictWeakOrder(a: Json, b: Json, c: Json)
    ensures !Less(a, a)
    ensures Less(a, b) ==> !Less(b, a)
    ensures Less(a, b) && Less(b, c) ==> Less(a, c)
    ensures !Less(a, b) && !Less(b, a) && !Less(b, c) && !Less(c, b) ==> !Less(a, c) && !Less(c, a)
  {
    hide Less, Cmp;
    CmpSelf(a);
    LessIsCmp(a, a);
    LessIsCmp(a, b);
    LessIsCmp(b, c);
    LessIsCmp(a, c);
    CmpChains(a, b, c);
    CmpChains(c, b, a);
    LessIsCmp(b, a);
    LessIsCmp(c, b);
    LessIsCmp(c, a);
  }

  // ---- equality of objects, entry by sorted entry ----

  lemma {:induction false} EqEntriesMeans(a: Json, b: Json, i: nat)
    requires a.Obj? && b.Obj? && i <= |a.members|
    ensures EqEntries(a, b, i) <==> forall k :: i <= k < |a.members| ==> FoundEqual(a, b, k)
    decreases |a.members| - i
  {
    if i < |a.members| {
      EqEntriesMeans(a, b, i + 1);
      assert EqEntries(a, b, i) <==> FoundEqual(a, b, i) && EqEntries(a, b, i + 1);
      hide Eq, EqEntries, FoundEqual;
    }
  }

  /** Entry k of a is found in b, with an equal value. */
  predicate FoundEqual(a: Json, b: Json, k: nat)
    requires a.Obj? && b.Obj? && k < |a.members|
  {
    var pos := FirstMatch(b.members, a.members[k].key);
    pos < |b.members| && Eq(b.members[pos].value, a.members[k].value)
  }

  /** Same keys in the same places, equal values. */
  ghost predicate Pairwise(sa: seq<Member>, sb: seq<Member>) {
    |sa| == |sb| && forall i :: 0 <= i < |sa| ==> sa[i].key == sb[i].key && Eq(sb[i].value, sa[i].value)
  }

  function KeysOnly(ms: seq<Member>): (ks: seq<Member>)
    ensures |ks| == |ms| && forall i :: 0 <= i < |ms| ==> ks[i] == Member(ms[i].key, Null)
  {
    seq(|ms|, i requires 0 <= i < |ms| => Member(ms[i].key, Null))
  }

  lemma SameKeysSameOrder(sa: seq<Member>, sb: seq<Member>)
    requires DistinctKeys(sa) && DistinctKeys(sb) && SortedByKey(sa) && SortedByKey(sb) && Keys(sa) == Keys(sb)
    ensures |sa| == |sb| && forall i :: 0 <= i < |sa| ==> sa[i].key == sb[i].key
  {
    var ka, kb := KeysOnly(sa), KeysOnly(sb);
    forall m: Member ensures multiset(ka)[m] == multiset(kb)[m] {
      OnceOnly(ka, m);
      OnceOnly(kb, m);
      KeysOnlyMembers(sa, m);
      KeysOnlyMembers(sb, m);
    }
    assert multiset(ka) == multiset(kb);
    SortedUnique(ka, kb);
    assert forall i :: 0 <= i < |sa| ==> sa[i].key == ka[i].key && sb[i].key == kb[i].key;
  }

  lemma KeysOnlyMembers(ms: seq<Member>, m: Member)
    ensures m in KeysOnly(ms) <==> m.value == Null && m.key in Keys(ms)
  {
    if m.value == Null && m.key in Keys(ms) {
      var i :| 0 <= i < |ms| && ms[i].key == m.key;
      assert KeysOnly(ms)[i] == m;
    }
  }

  /** What sorting keeps. */
  lemma SortedFacts(ms: seq<Member>)
    requires DistinctKeys(ms)
    ensures var s := SortMembers(ms);
      && DistinctKeys(s) && SortedByKey(s) && |s| == |ms| && Keys(s) == Keys(ms)
      && (forall m :: m in s <==> m in ms)
  {
    var s := SortMembers(ms);
    SortMembersSorts(ms);
    DistinctByMultiset(ms, s);
    forall m ensures m in s <==> m in ms {
      assert m in multiset(s) <==> m in multiset(ms);
    }
    KeysByMembership(ms, s);
  }

  lemma KeysByMembership(a: seq<Member>, b: seq<Member>)
    requires forall m :: m in a <==> m in b
    ensures Keys(a) == Keys(b)
  {
    forall k ensures k in Keys(a) <==> k in Keys(b) {
      if k in Keys(a) {
        var i :| 0 <= i < |a| && a[i].key == k;
        assert a[i] in b;
        var j :| 0 <= j < |b| && b[j] == a[i];
      }
      if k in Keys(b) {
        var i :| 0 <= i < |b| && b[i].key == k;
        assert b[i] in a;
        var j :| 0 <= j < |a| && a[j] == b[i];
      }
    }
  }

  /** With distinct keys, an entry is found at its own position. */
  lemma FoundAt(ms: seq<Member>, m: Member)
    requires DistinctKeys(ms) && m in ms
    ensures FirstMatch(ms, m.key) < |ms| && ms[FirstMatch(ms, m.key)] == m
  {
    var j :| 0 <= j < |ms| && ms[j] == m;
    FirstMatchUnique(ms, m.key, j);
  }

  lemma {:induction false} KeyCount(ms: seq<Member>)
    requires DistinctKeys(ms)
    ensures |Keys(ms)| == |ms|
  {
    if |ms| > 0 {
      var k := |ms| - 1;
      KeyCount(ms[..k]);
      assert Keys(ms) == Keys(ms[..k]) + {ms[k].key} by {
        forall x ensures x in Keys(ms) <==> x in Keys(ms[..k]) + {ms[k].key} {
          if x in Keys(ms[..k]) {
            var i :| 0 <= i < k && ms[..k][i].key == x;
            assert ms[i].key == x;
          }
          if x in Keys(ms) {
            var i :| 0 <= i < |ms| && ms[i].key == x;
            if i < k { assert ms[..k][i].key == x; }
          }
        }
      }
      assert ms[k].key !in Keys(ms[..k]);
    }
  }

  lemma SubsetSameSize(a: set<bytes>, b: set<bytes>)
    requires a <= b && |a| == |b|
    ensures a == b
  {
    assert |b - a| == 0;
  }

  lemma ObjectEqSorted(a: Json, b: Json)
    requires a.Obj? && b.Obj? && DistinctKeys(a.members) && DistinctKeys(b.members)
    ensures Eq(a, b) <==> Pairwise(SortMembers(a.members), SortMembers(b.members))
  {
    assert Eq(a, b) <==> |a.members| == |b.members| && EqEntries(a, b, 0);
    EqEntriesMeans(a, b, 0);
    SortedFacts(a.members);
    SortedFacts(b.members);
    hide Eq, EqEntries;
    if Eq(a, b) { SortedForward(a, b); }
    if Pairwise(SortMembers(a.members), SortMembers(b.members)) { SortedBackward(a, b); }
  }

  lemma SortedForward(a: Json, b: Json)
    requires a.Obj? && b.Obj? && DistinctKeys(a.members) && DistinctKeys(b.members)
    requires |a.members| == |b.members| && forall k :: 0 <= k < |a.members| ==> FoundEqual(a, b, k)
    ensures Pairwise(SortMembers(a.members), SortMembers(b.members))
  {
    var sa, sb := SortMembers(a.members), SortMembers(b.members);
    SortedFacts(a.members);
    SortedFacts(b.members);
    forall x | x in Keys(a.members) ensures x in Keys(b.members) {
      var k :| 0 <= k < |a.members| && a.members[k].key == x;
      assert FoundEqual(a, b, k);
    }
    KeyCount(a.members);
    KeyCount(b.members);
    SubsetSameSize(Keys(a.members), Keys(b.members));
    SameKeysSameOrder(sa, sb);
    forall i | 0 <= i < |sa| ensures Eq(sb[i].value, sa[i].value) {
      assert sa[i] in a.members && sb[i] in b.members;
      var k :| 0 <= k < |a.members| && a.members[k] == sa[i];
      assert FoundEqual(a, b, k);
      FoundAt(b.members, sb[i]);
    }
  }

  lemma SortedBackward(a: Json, b: Json)
    requires a.Obj? && b.Obj? && DistinctKeys(a.members) && DistinctKeys(b.members)
    requires Pairwise(SortMembers(a.members), SortMembers(b.members))
    ensures |a.members| == |b.members| && forall k :: 0 <= k < |a.members| ==> FoundEqual(a, b, k)
  {
    var sa, sb := SortMembers(a.members), SortMembers(b.members);
    SortedFacts(a.members);
    SortedFacts(b.members);
    forall k | 0 <= k < |a.members| ensures FoundEqual(a, b, k) {
      assert a.members[k] in sa;
      var i :| 0 <= i < |sa| && sa[i] == a.members[k];
      assert sb[i] in b.members;
      FoundAt(b.members, sb[i]);
    }
  }

  // ---- symmetry ----

  lemma SortedEntryKeyed(a: Json, i: nat)
    requires a.Obj? && WellKeyed(a) && i < |a.members|
    ensures var s := SortMembers(a.members); i < |s| && WellKeyed(s[i].value) && Size(s[i].value) < Size(a)
  {
    var s := SortMembers(a.members);
    SortedFacts(a.members);
    SortedEntries(a);
    EntrySmaller(s, a, i);
    assert s[i] in a.members;
    var k :| 0 <= k < |a.members| && a.members[k] == s[i];
  }

  lemma {:induction false} EqItemsMeans(a: Json, b: Json, i: nat)
    requires a.Arr? && b.Arr? && |a.items| == |b.items| && i <= |a.items|
    ensures EqItems(a, b, i) <==> forall k :: i <= k < |a.items| ==> Eq(a.items[k], b.items[k])
    decreases |a.items| - i
  {
    hide Eq;
    if i < |a.items| {
      ItemSmaller(a, 0, i);
      ItemSmaller(b, 0, i);
      EqItemsMeans(a, b, i + 1);
    }
  }

  /** With distinct keys, equality does not depend on which side is looked into. */
  lemma {:induction false} EqFlips(a: Json, b: Json)
    requires WellKeyed(a) && WellKeyed(b) && Eq(a, b)
    ensures Eq(b, a)
    decreases Size(a) + Size(b)
  {
    if a.Arr? {
      EqItemsMeans(a, b, 0);
      forall k | 0 <= k < |b.items| ensures Eq(b.items[k], a.items[k]) {
        ItemSmaller(a, 0, k);
        ItemSmaller(b, 0, k);
        EqFlips(a.items[k], b.items[k]);
      }
      EqItemsMeans(b, a, 0);
    } else if a.Obj? {
      ObjectEqSorted(a, b);
      ObjectEqSorted(b, a);
      var sa, sb := SortMembers(a.members), SortMembers(b.members);
      forall i | 0 <= i < |sb| ensures Eq(sa[i].value, sb[i].value) {
        SortedEntryKeyed(a, i);
        SortedEntryKeyed(b, i);
        EqFlips(sb[i].value, sa[i].value);
      }
    }
  }

  lemma EqSymmetric(a: Json, b: Json)
    requires WellKeyed(a) && WellKeyed(b)
    ensures Eq(a, b) <==> Eq(b, a)
  {
    if Eq(a, b) { EqFlips(a, b); }
    if Eq(b, a) { EqFlips(b, a); }
  }

  // ---- equality and order ----

  ghost predicate NoNan(j: Json) {
    match j
    case Float(d) => !IsNan(d)
    case Arr(items) => forall i :: 0 <= i < |items| ==> NoNan(items[i])
    case Obj(ms) => forall i :: 0 <= i < |ms| ==> NoNan(ms[i].value)
    case _ => true
  }

  lemma CmpReverses(a: Json, b: Json)
    ensures Cmp(a, b) == 0 <==> Cmp(b, a) == 0
  {
    LessIsCmp(a, b);
    LessIsCmp(b, a);
  }

  lemma {:induction false} EqIsCmp(a: Json, b: Json)
    requires WellKeyed(a) && WellKeyed(b) && NoNan(a) && NoNan(b)
    ensures Eq(a, b) <==> Cmp(a, b) == 0
    decreases Size(a) + Size(b), 1, 0
  {
    if Rank(a) == Rank(b) {
      match a
      case Float(x) => FloatLessIsKey(x, b.d);
      case Str(x) => BytesTotal(x, b.s);
      case Arr(_) => if |a.items| == |b.items| {
        EqIsCmpItems(a, b, 0);
      } else if CmpItems(a, b, 0) == 0 {
        CmpLengths(a, b, 0);
      }
      case Obj(_) => EqIsCmpObject(a, b);
      case _ =>
    }
  }

  lemma {:induction false} CmpLengths(a: Json, b: Json, i: nat)
    requires a.Arr? && b.Arr? && i <= |a.items| && i <= |b.items| && CmpItems(a, b, i) == 0
    ensures |a.items| == |b.items|
    decreases |a.items| - i
  {
    hide Cmp;
    if i < |a.items| && i < |b.items| {
      ItemSmaller(a, 0, i);
      ItemSmaller(b, 0, i);
      CmpLengths(a, b, i + 1);
    }
  }

  lemma {:induction false} EqIsCmpItems(a: Json, b: Json, i: nat)
    requires a.Arr? && b.Arr? && |a.items| == |b.items| && i <= |a.items|
    requires WellKeyed(a) && WellKeyed(b) && NoNan(a) && NoNan(b)
    ensures EqItems(a, b, i) <==> CmpItems(a, b, i) == 0
    decreases Size(a) + Size(b), 0, |a.items| - i
  {
    hide Eq, Cmp;
    if i < |a.items| {
      ItemSmaller(a, 0, i);
      ItemSmaller(b, 0, i);
      EqIsCmp(a.items[i], b.items[i]);
      EqIsCmpItems(a, b, i + 1);
    }
  }

  lemma EqIsCmpObject(a: Json, b: Json)
    requires a.Obj? && b.Obj? && WellKeyed(a) && WellKeyed(b) && NoNan(a) && NoNan(b)
    ensures Eq(a, b) <==> Cmp(a, b) == 0
    decreases Size(a) + Size(b), 0, 1
  {
    var sa, sb := SortMembers(a.members), SortMembers(b.members);
    SortedEntries(a);
    SortedEntries(b);
    ObjectEqSorted(a, b);
    assert Cmp(a, b) == CmpEntries(a, b, sa, sb, 0);
    hide Eq, Cmp, SortMembers, WellKeyed, NoNan, Size, CmpEntries;
    CmpEntriesMeans(a, b, sa, sb, 0);
    assert Pairwise(sa, sb) <==> CmpPairwise(sa, sb) by {
      forall i | 0 <= i < |sa| && i < |sb|
        ensures Eq(sb[i].value, sa[i].value) <==> Cmp(sa[i].value, sb[i].value) == 0
      {
        EqIsCmpEntry(a, b, i);
      }
      PairwiseAgree(sa, sb);
    }
    hide Pairwise;
  }

  ghost predicate CmpPairwise(sa: seq<Member>, sb: seq<Member>) {
    |sa| == |sb| && forall i :: 0 <= i < |sa| ==> sa[i].key == sb[i].key && Cmp(sa[i].value, sb[i].value) == 0
  }

  lemma PairwiseAgree(sa: seq<Member>, sb: seq<Member>)
    requires forall i :: 0 <= i < |sa| && i < |sb| ==>
      (Eq(sb[i].value, sa[i].value) <==> Cmp(sa[i].value, sb[i].value) == 0)
    ensures Pairwise(sa, sb) <==> CmpPairwise(sa, sb)
  {
    hide Eq, Cmp;
  }

  lemma EqIsCmpEntry(a: Json, b: Json, i: nat)
    requires a.Obj? && b.Obj? && WellKeyed(a) && WellKeyed(b) && NoNan(a) && NoNan(b)
    requires i < |SortMembers(a.members)| && i < |SortMembers(b.members)|
    ensures var va, vb := SortMembers(a.members)[i].value, SortMembers(b.members)[i].value;
      Eq(vb, va) <==> Cmp(va, vb) == 0
    decreases Size(a) + Size(b), 0, 0
  {
    hide Eq, Cmp, SortMembers, WellKeyed, NoNan;
    var va, vb := SortMembers(a.members)[i].value, SortMembers(b.members)[i].value;
    SortedEntryKeyed(a, i);
    SortedEntryKeyed(b, i);
    SortedEntryNoNan(a, i);
    SortedEntryNoNan(b, i);
    EqIsCmp(vb, va);
    CmpReverses(vb, va);
  }

  lemma SortedEntryNoNan(a: Json, i: nat)
    requires a.Obj? && NoNan(a) && i < |a.members|
    ensures NoNan(SortMembers(a.members)[i].value)
  {
    SortedEntries(a);
    var s := SortMembers(a.members);
    assert s[i] in a.members;
    var k :| 0 <= k < |a.members| && a.members[k] == s[i];
  }

  lemma {:induction false} CmpEntriesMeans(a: Json, b: Json, pa: seq<Member>, pb: seq<Member>, i: nat)
    requires EntriesOf(pa, a) && EntriesOf(pb, b) && i <= |pa| && i <= |pb|
    ensures CmpEntries(a, b, pa, pb, i) == 0 <==>
      |pa| == |pb| && forall k :: i <= k < |pa| ==> pa[k].key == pb[k].key && Cmp(pa[k].value, pb[k].value) == 0
    decreases |pa| - i
  {
    hide Cmp;
    if i < |pa| && i < |pb| {
      BytesCmpLaws(pa[i].key, pb[i].key);
      EntrySmaller(pa, a, i);
      EntrySmaller(pb, b, i);
      CmpEntriesMeans(a, b, pa, pb, i + 1);
    }
  }

  lemma {:induction false} NoNanItems(a: Json, b: Json, i: nat)
    requires a.Arr? && b.Arr? && i <= |a.items| && i <= |b.items| && CmpItems(a, b, i) == 0
    ensures |a.items| == |b.items| && forall k :: i <= k < |a.items| ==> NoNan(a.items[k]) == NoNan(b.items[k])
    decreases Size(a) + Size(b), 1, |a.items| - i
  {
    hide Cmp, NoNan;
    if i < |a.items| && i < |b.items| {
      ItemSmaller(a, 0, i);
      ItemSmaller(b, 0, i);
      SameNans(a.items[i], b.items[i]);
      NoNanItems(a, b, i + 1);
    }
  }

  /** NaN ranks beside NaN only, so trees the order does not tell apart hold NaN in the same places. */
  lemma {:induction false} SameNans(a: Json, b: Json)
    requires Cmp(a, b) == 0
    ensures NoNan(a) == NoNan(b)
    decreases Size(a) + Size(b), 2, 0
  {
    match a
    case Float(x) =>
    case Arr(_) => NoNanItems(a, b, 0);
    case Obj(_) => SameNansObject(a, b);
    case _ =>
  }

  lemma {:induction false} SameNansObject(a: Json, b: Json)
    requires a.Obj? && b.Obj? && Cmp(a, b) == 0
    ensures NoNan(a) == NoNan(b)
    decreases Size(a) + Size(b), 1, 0
  {
    var sa, sb := SortMembers(a.members), SortMembers(b.members);
    SortedEntries(a);
    SortedEntries(b);
    assert CmpEntries(a, b, sa, sb, 0) == 0;
    hide Cmp, CmpEntries, NoNan, SortMembers, Size, NoNans, EntriesOf;
    CmpEntriesMeans(a, b, sa, sb, 0);
    forall i | 0 <= i < |sa| ensures NoNan(sa[i].value) == NoNan(sb[i].value) {
      EntrySmaller(sa, a, i);
      EntrySmaller(sb, b, i);
      SameNans(sa[i].value, sb[i].value);
    }
    SortedNans(a);
    SortedNans(b);
    NansAgree(sa, sb);
  }

  ghost predicate NoNans(ms: seq<Member>) {
    forall m :: m in ms ==> NoNan(m.value)
  }

  lemma NansAgree(sa: seq<Member>, sb: seq<Member>)
    requires |sa| == |sb| && forall i :: 0 <= i < |sa| ==> NoNan(sa[i].value) == NoNan(sb[i].value)
    ensures NoNans(sa) == NoNans(sb)
  {
    hide NoNan;
    if NoNans(sa) {
      forall m | m in sb ensures NoNan(m.value) {
        var i :| 0 <= i < |sb| && sb[i] == m;
        assert sa[i] in sa;
      }
    }
    if NoNans(sb) {
      forall m | m in sa ensures NoNan(m.value) {
        var i :| 0 <= i < |sa| && sa[i] == m;
        assert sb[i] in sb;
      }
    }
  }

  lemma SortedNans(a: Json)
    requires a.Obj?
    ensures NoNan(a) <==> NoNans(SortMembers(a.members))
  {
    hide NoNan, SortMembers;
    ObjectNans(a);
    var s := SortMembers(a.members);
    forall m ensures m in s <==> m in a.members {
      assert m in multiset(s) <==> m in multiset(a.members);
    }
  }

  lemma ObjectNans(a: Json)
    requires a.Obj?
    ensures NoNan(a) <==> NoNans(a.members)
  {
    if NoNans(a.members) {
      forall i | 0 <= i < |a.members| ensures NoNan(a.members[i].value) { assert a.members[i] in a.members; }
    }
  }

  /** Equal trees hold no NaN. */
  lemma {:induction false} EqNoNan(a: Json, b: Json)
    requires WellKeyed(a) && WellKeyed(b) && Eq(a, b)
    ensures NoNan(a)
    decreases Size(a) + Size(b)
  {
    if a.Arr? {
      EqItemsMeans(a, b, 0);
      forall k | 0 <= k < |a.items| ensures NoNan(a.items[k]) {
        ItemSmaller(a, 0, k);
        ItemSmaller(b, 0, k);
        EqNoNan(a.items[k], b.items[k]);
      }
    } else if a.Obj? {
      ObjectEqSorted(a, b);
      var sa, sb := SortMembers(a.members), SortMembers(b.members);
      forall m | m in sa ensures NoNan(m.value) {
        var i :| 0 <= i < |sa| && sa[i] == m;
        SortedEntryKeyed(a, i);
        SortedEntryKeyed(b, i);
        EqFlips(sb[i].value, sa[i].value);
        EqNoNan(sa[i].value, sb[i].value);
      }
      SortedNans(a);
    }
  }

  /** With distinct keys, two trees are equal exactly when they hold no NaN and neither is less. */
  lemma EqIsNeitherLess(a: Json, b: Json)
    requires WellKeyed(a) && WellKeyed(b)
    ensures Eq(a, b) <==> NoNan(a) && !Less(a, b) && !Less(b, a)
  {
    hide Eq, Less, Cmp, NoNan;
    LessIsCmp(a, b);
    if Eq(a, b) {
      EqNoNan(a, b);
      EqSymmetric(a, b);
      EqNoNan(b, a);
      EqIsCmp(a, b);
    }
    if NoNan(a) && Cmp(a, b) == 0 {
      SameNans(a, b);
      EqIsCmp(a, b);
    }
  }

  /** A tree equals itself exactly when it holds no NaN. */
  lemma EqSelf(a: Json)
    requires WellKeyed(a)
    ensures Eq(a, a) <==> NoNan(a)
  {
    hide Eq, Less, NoNan;
    EqIsNeitherLess(a, a);
    StrictWeakOrder(a, a, a);
  }

  /** A NaN is neither less than itself nor equal to itself. */
  lemma NanBreaksTrichotomy(d: Double)
    requires IsNan(d)
    ensures !Less(Float(d), Float(d)) && !Eq(Float(d), Float(d))
  {
  }

  // ---- equality and hash ----

  /** The additive fold over any entries. */
  function Sum(mx: Mixer, ms: seq<Member>): Word {
    if |ms| == 0 then mx.mix(6)
    else Add(Sum(mx, ms[..|ms| - 1]), Term(mx, ms[|ms| - 1].key, Hash(mx, ms[|ms| - 1].value)))
  }

  lemma AddSwaps(x: Word, y: Word, z: Word)
    ensures Add(Add(x, y), z) == Add(Add(x, z), y)
  {
  }

  lemma {:induction false} HashIsSum(mx: Mixer, j: Json, n: nat)
    requires j.Obj? && n <= |j.members|
    ensures HashMembers(mx, j, n) == Sum(mx, j.members[..n])
    decreases n
  {
    hide Add, Term, Hash;
    if n > 0 {
      HashIsSum(mx, j, n - 1);
      assert j.members[..n][..n - 1] == j.members[..n - 1];
    }
  }

  function TermOf(mx: Mixer, m: Member): Word { Term(mx, m.key, Hash(mx, m.value)) }

  lemma {:induction false} SumCons(mx: Mixer, m: Member, ms: seq<Member>)
    ensures Sum(mx, [m] + ms) == Add(Sum(mx, ms), TermOf(mx, m))
  {
    hide Term, Hash, Add;
    var r := [m] + ms;
    if |ms| == 0 {
      assert r[..0] == [] && r[0] == m && ms == [];
    } else {
      var k := |ms| - 1;
      assert r[..|r| - 1] == [m] + ms[..k] && r[|r| - 1] == ms[k];
      SumCons(mx, m, ms[..k]);
      AddSwaps(Sum(mx, ms[..k]), TermOf(mx, m), TermOf(mx, ms[k]));
    }
  }

  lemma {:induction false} SumInsert(mx: Mixer, ms: seq<Member>, m: Member)
    ensures Sum(mx, Insert(ms, m)) == Add(Sum(mx, ms), TermOf(mx, m))
  {
    hide TermOf, Add, Sum;
    if |ms| == 0 || BytesLess(m.key, ms[0].key) {
      SumCons(mx, m, ms);
      assert [m] + ms == Insert(ms, m) by { if |ms| == 0 { assert [m] + ms == [m]; } }
    } else {
      SumInsert(mx, ms[1..], m);
      SumCons(mx, ms[0], Insert(ms[1..], m));
      SumCons(mx, ms[0], ms[1..]);
      assert [ms[0]] + ms[1..] == ms;
      AddSwaps(Sum(mx, ms[1..]), TermOf(mx, m), TermOf(mx, ms[0]));
    }
  }

  /** The fold does not depend on the entry order. */
  lemma {:induction false} SumSorted(mx: Mixer, ms: seq<Member>)
    ensures Sum(mx, SortMembers(ms)) == Sum(mx, ms)
  {
    hide Term, Hash, Add, Insert;
    if |ms| > 0 {
      var k := |ms| - 1;
      SumSorted(mx, ms[..k]);
      SumInsert(mx, SortMembers(ms[..k]), ms[k]);
    }
  }

  lemma {:induction false} SumPairwise(mx: Mixer, sa: seq<Member>, sb: seq<Member>)
    requires |sa| == |sb|
    requires forall i :: 0 <= i < |sa| ==> sa[i].key == sb[i].key && Hash(mx, sa[i].value) == Hash(mx, sb[i].value)
    ensures Sum(mx, sa) == Sum(mx, sb)
  {
    hide Hash, Add, Term;
    if |sa| > 0 { SumPairwise(mx, sa[..|sa| - 1], sb[..|sb| - 1]); }
  }

  /** Equal trees hash alike, whatever the order of their entries. */
  lemma {:induction false} EqualHashes(mx: Mixer, a: Json, b: Json)
    requires WellKeyed(a) && WellKeyed(b) && Eq(a, b)
    ensures Hash(mx, a) == Hash(mx, b)
    decreases Size(a) + Size(b), 1, 0
  {
    match a
    case Float(x) => DoubleBitsEqual(x, b.d);
    case Arr(_) => EqItemsMeans(a, b, 0); EqualHashItems(mx, a, b, |a.items|);
    case Obj(ms) =>
      var sa, sb := SortMembers(a.members), SortMembers(b.members);
      ObjectEqSorted(a, b);
      forall i | 0 <= i < |sa| ensures Hash(mx, sa[i].value) == Hash(mx, sb[i].value) {
        SortedEntryKeyed(a, i);
        SortedEntryKeyed(b, i);
        EqualHashes(mx, sb[i].value, sa[i].value);
      }
      SumPairwise(mx, sa, sb);
      SumSorted(mx, a.members);
      SumSorted(mx, b.members);
      HashIsSum(mx, a, |a.members|);
      HashIsSum(mx, b, |b.members|);
      assert a.members[..|a.members|] == a.members && b.members[..|b.members|] == b.members;
    case _ =>
  }

  lemma DoubleBitsEqual(x: Double, y: Double)
    requires FloatEq(x, y)
    ensures DoubleBits(x) == DoubleBits(y)
  {
  }

  lemma {:induction false} EqualHashItems(mx: Mixer, a: Json, b: Json, n: nat)
    requires a.Arr? && b.Arr? && |a.items| == |b.items| && n <= |a.items| && WellKeyed(a) && WellKeyed(b)
    requires forall k :: 0 <= k < |a.items| ==> Eq(a.items[k], b.items[k])
    ensures HashItems(mx, a, n) == HashItems(mx, b, n)
    decreases Size(a) + Size(b), 0, n
  {
    hide Hash, Eq, Xor;
    if n > 0 {
      EqualHashItems(mx, a, b, n - 1);
      ItemSmaller(a, 0, n - 1);
      ItemSmaller(b, 0, n - 1);
      EqualHashes(mx, a.items[n - 1], b.items[n - 1]);
    }
  }
}
