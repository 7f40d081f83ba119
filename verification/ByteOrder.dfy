/** Byte-string comparison, and sorting entries by key with it. */
module ByteOrder {
  import opened Core

  /** std::string_view's operator<: lexicographic on unsigned bytes. */
  predicate BytesLess(a: bytes, b: bytes) {
    |b| > 0 && (|a| == 0 || a[0] < b[0] || (a[0] == b[0] && BytesLess(a[1..], b[1..])))
  }

  /** The two agree up to i, where a ends first or has the smaller byte. */
  ghost predicate SmallerAt(a: bytes, b: bytes, i: nat) {
    && i <= |a| && i < |b| && a[..i] == b[..i]
    && (i == |a| || a[i] < b[i])
  }

  /** It is the lexicographic order: the first difference decides, and a proper prefix is smaller. */
  lemma {:induction false} BytesLessMeans(a: bytes, b: bytes)
    ensures BytesLess(a, b) <==> exists i: nat :: SmallerAt(a, b, i)
    decreases |a|
  {
    if |b| > 0 {
      if |a| == 0 || a[0] != b[0] {
        assert a[..0] == b[..0];
        assert (|a| == 0 || a[0] < b[0]) <==> SmallerAt(a, b, 0);
        forall i: nat | i > 0 ensures !SmallerAt(a, b, i) { HeadDecides(a, b, i); }
      } else {
        BytesLessMeans(a[1..], b[1..]);
        if exists i: nat :: SmallerAt(a[1..], b[1..], i) {
          var i: nat :| SmallerAt(a[1..], b[1..], i);
          SmallerShifts(a, b, i);
          assert SmallerAt(a, b, i + 1);
        }
        if exists i: nat :: SmallerAt(a, b, i) {
          var i: nat :| SmallerAt(a, b, i);
          SmallerShifts(a, b, i - 1);
          assert SmallerAt(a[1..], b[1..], i - 1);
        }
      }
    }
  }

  lemma HeadDecides(a: bytes, b: bytes, i: nat)
    requires |b| > 0 && i > 0 && (|a| == 0 || a[0] != b[0])
    ensures !SmallerAt(a, b, i)
  {
    if i <= |a| && i <= |b| { assert a[..i][0] == a[0] && b[..i][0] == b[0]; }
  }

  lemma SmallerShifts(a: bytes, b: bytes, i: nat)
    requires |a| > 0 && |b| > 0 && a[0] == b[0]
    ensures SmallerAt(a, b, i + 1) <==> SmallerAt(a[1..], b[1..], i)
  {
    if i + 1 <= |a| && i + 1 <= |b| {
      assert a[..i + 1] == [a[0]] + a[1..][..i];
      assert b[..i + 1] == [b[0]] + b[1..][..i];
      if a[..i + 1] == b[..i + 1] { assert a[1..][..i] == a[..i + 1][1..]; assert b[1..][..i] == b[..i + 1][1..]; }
    }
  }

  lemma {:induction false} BytesTotal(a: bytes, b: bytes)
    ensures BytesLess(a, b) || BytesLess(b, a) || a == b
    ensures !(BytesLess(a, b) && BytesLess(b, a))
    ensures a == b ==> !BytesLess(a, b)
  {
    if |a| > 0 && |b| > 0 {
      BytesTotal(a[1..], b[1..]);
      assert a == [a[0]] + a[1..] && b == [b[0]] + b[1..];
    }
  }

  lemma {:induction false} BytesTransitive(a: bytes, b: bytes, c: bytes)
    requires BytesLess(a, b) && BytesLess(b, c)
    ensures BytesLess(a, c)
  {
    if |a| > 0 && a[0] == b[0] == c[0] { BytesTransitive(a[1..], b[1..], c[1..]); }
  }

  ghost predicate SortedByKey(ms: seq<Member>) {
    forall i, j :: 0 <= i < j < |ms| ==> !BytesLess(ms[j].key, ms[i].key)
  }

  /** Insert before the first entry with a greater key. */
  function Insert(ms: seq<Member>, m: Member): (r: seq<Member>)
    ensures multiset(r) == multiset(ms) + multiset{m} && |r| == |ms| + 1
  {
    if |ms| == 0 then [m]
    else if BytesLess(m.key, ms[0].key) then assert [m] + ms == [m] + ms; [m] + ms
    else
      assert ms == [ms[0]] + ms[1..];
      [ms[0]] + Insert(ms[1..], m)
  }

  /** The entries by key, equal keys in entry order. */
  function SortMembers(ms: seq<Member>): (r: seq<Member>)
    ensures multiset(r) == multiset(ms) && |r| == |ms|
  {
    if |ms| == 0 then []
    else
      var k := |ms| - 1;
      assert ms == ms[..k] + [ms[k]];
      Insert(SortMembers(ms[..k]), ms[k])
  }

  lemma NotLessTransitive(a: bytes, b: bytes, c: bytes)
    requires !BytesLess(b, a) && !BytesLess(c, b)
    ensures !BytesLess(c, a)
  {
    BytesTotal(a, b);
    BytesTotal(b, c);
    if a != b && b != c { BytesTransitive(a, b, c); BytesTotal(a, c); }
  }

  lemma SortedCons(m: Member, ms: seq<Member>)
    requires SortedByKey(ms) && (|ms| > 0 ==> !BytesLess(ms[0].key, m.key))
    ensures SortedByKey([m] + ms)
  {
    var r := [m] + ms;
    forall i, j | 0 <= i < j < |r| ensures !BytesLess(r[j].key, r[i].key) {
      assert r[j] == ms[j - 1];
      if i == 0 {
        if j > 1 { NotLessTransitive(m.key, ms[0].key, ms[j - 1].key); }
      } else {
        assert r[i] == ms[i - 1];
      }
    }
  }

  lemma {:induction false} InsertSorted(ms: seq<Member>, m: Member)
    requires SortedByKey(ms)
    ensures SortedByKey(Insert(ms, m))
  {
    if |ms| == 0 {
    } else if BytesLess(m.key, ms[0].key) {
      BytesTotal(m.key, ms[0].key);
      SortedCons(m, ms);
    } else {
      var rest := ms[1..];
      assert SortedByKey(rest) by {
        forall i, j | 0 <= i < j < |rest| ensures !BytesLess(rest[j].key, rest[i].key) {
          assert rest[i] == ms[i + 1] && rest[j] == ms[j + 1];
        }
      }
      InsertSorted(rest, m);
      if |rest| > 0 { assert rest[0] == ms[1]; }
      SortedCons(ms[0], Insert(rest, m));
    }
  }

  /** Sorting sorts; with the multiset in its contract, it is a sorted permutation. */
  lemma {:induction false} SortMembersSorts(ms: seq<Member>)
    ensures SortedByKey(SortMembers(ms))
  {
    if |ms| > 0 {
      SortMembersSorts(ms[..|ms| - 1]);
      InsertSorted(SortMembers(ms[..|ms| - 1]), ms[|ms| - 1]);
    }
  }

  lemma DistinctByMultiset(a: seq<Member>, b: seq<Member>)
    requires multiset(a) == multiset(b) && DistinctKeys(a)
    ensures DistinctKeys(b)
  {
    forall i, j | 0 <= i < j < |b| ensures b[i].key != b[j].key {
      if b[i].key == b[j].key {
        assert b[i] in multiset(a) && b[j] in multiset(a);
        var x :| 0 <= x < |a| && a[x] == b[i];
        var y :| 0 <= y < |a| && a[y] == b[j];
        assert x == y;
        assert b == b[..i] + [b[i]] + b[i + 1..j] + [b[j]] + b[j + 1..];
        assert multiset(b)[b[i]] >= 2;
        OnceOnly(a, b[i]);
      }
    }
  }

  lemma OnceOnly(a: seq<Member>, m: Member)
    requires DistinctKeys(a)
    ensures multiset(a)[m] <= 1
  {
    if m in a {
      var x :| 0 <= x < |a| && a[x] == m;
      assert a == a[..x] + [m] + a[x + 1..];
      assert m !in a[..x] && m !in a[x + 1..];
    }
  }

  /** With distinct keys there is one sorted permutation: whichever algorithm sorts, the result is the same. */
  lemma {:induction false} SortedUnique(a: seq<Member>, b: seq<Member>)
    requires multiset(a) == multiset(b) && DistinctKeys(a) && SortedByKey(a) && SortedByKey(b)
    ensures a == b
  {
    hide DistinctKeys, SortedByKey;
    assert |a| == |multiset(a)| == |multiset(b)| == |b|;
    if |a| > 0 {
      DistinctByMultiset(a, b);
      SameHead(a, b);
      TailMultiset(a);
      TailMultiset(b);
      TailDistinctSorted(a);
      TailDistinctSorted(b);
      SortedUnique(a[1..], b[1..]);
    }
  }

  lemma TailMultiset(a: seq<Member>)
    requires |a| > 0
    ensures a == [a[0]] + a[1..] && multiset(a[1..]) == multiset(a) - multiset{a[0]}
  {
    assert a == [a[0]] + a[1..];
  }

  lemma SameHead(a: seq<Member>, b: seq<Member>)
    requires |a| > 0 && |b| > 0 && multiset(a) == multiset(b) && DistinctKeys(a) && SortedByKey(a) && SortedByKey(b)
    ensures a[0] == b[0]
  {
    assert a[0] in multiset(b) && b[0] in multiset(a);
    var x :| 0 <= x < |a| && a[x] == b[0];
    var y :| 0 <= y < |b| && b[y] == a[0];
    assert x > 0 ==> !BytesLess(b[0].key, a[0].key);
    assert y > 0 ==> !BytesLess(a[0].key, b[0].key);
    BytesTotal(a[0].key, b[0].key);
  }

  lemma TailDistinctSorted(a: seq<Member>)
    requires |a| > 0 && DistinctKeys(a) && SortedByKey(a)
    ensures DistinctKeys(a[1..]) && SortedByKey(a[1..])
  {
    var t := a[1..];
    forall i, j | 0 <= i < j < |t| ensures t[i].key != t[j].key && !BytesLess(t[j].key, t[i].key) {
      assert t[i] == a[i + 1] && t[j] == a[j + 1];
    }
  }
}
