/**
 Open addressing with linear probing. A slot holds 0 (free) or an entry position plus one; keys are read from
 the live entries. The hash function is a parameter, and `hash & (cap - 1)` is the remainder by the capacity,
 which is a power of two.
 */
module Probing {
  import opened Core

  type Hash = bytes -> nat
  type Slots = seq<nat>

  function KeySeq(ms: seq<Member>): (ks: seq<bytes>)
    ensures |ks| == |ms| && forall i :: 0 <= i < |ms| ==> ks[i] == ms[i].key
  {
    seq(|ms|, i requires 0 <= i < |ms| => ms[i].key)
  }

  /** First position of the key, or |ks|. */
  function FirstIndex(ks: seq<bytes>, key: bytes): (r: nat)
    ensures r <= |ks| && (forall i :: 0 <= i < r ==> ks[i] != key) && (r < |ks| ==> ks[r] == key)
  {
    if |ks| == 0 || ks[0] == key then 0 else FirstIndex(ks[1..], key) + 1
  }

  lemma FirstIndexIs(ks: seq<bytes>, key: bytes, r: nat)
    requires r <= |ks| && (forall i :: 0 <= i < r ==> ks[i] != key) && (r < |ks| ==> ks[r] == key)
    ensures FirstIndex(ks, key) == r
  {
  }

  lemma FirstMatchIsFirstIndex(ms: seq<Member>, key: bytes)
    ensures FirstMatch(ms, key) == FirstIndex(KeySeq(ms), key)
  {
    FirstIndexIs(KeySeq(ms), key, FirstMatch(ms, key));
  }

  // ---- occupancy ----

  /** Number of occupied slots. */
  function Count(s: Slots): (n: nat)
    ensures n <= |s|
  {
    if |s| == 0 then 0 else (if s[0] != 0 then 1 else 0) + Count(s[1..])
  }

  lemma {:induction false} CountUpdate(s: Slots, t: nat, x: nat)
    requires t < |s| && s[t] == 0 && x != 0
    ensures Count(s[t := x]) == Count(s) + 1
  {
    if t == 0 {
      assert s[t := x][1..] == s[1..];
    } else {
      CountUpdate(s[1..], t - 1, x);
      assert s[t := x][1..] == s[1..][t - 1 := x];
    }
  }

  lemma {:induction false} FullCount(s: Slots)
    requires forall t :: 0 <= t < |s| ==> s[t] != 0
    ensures Count(s) == |s|
  {
    if |s| > 0 { FullCount(s[1..]); }
  }

  lemma {:induction false} EmptyCount(s: Slots)
    requires forall t :: 0 <= t < |s| ==> s[t] == 0
    ensures Count(s) == 0
  {
    if |s| > 0 { EmptyCount(s[1..]); }
  }

  // ---- probe sequences ----

  /** The d-th slot probed from `home`. */
  function Ix(home: nat, d: nat, cap: nat): (t: nat)
    requires cap > 0
    ensures t < cap
  {
    (home + d) % cap
  }

  lemma IxStep(home: nat, d: nat, cap: nat)
    requires cap > 0
    ensures (Ix(home, d, cap) + 1) % cap == Ix(home, d + 1, cap)
  {
    var x := home + d;
    var q, r := x / cap, x % cap;
    assert x + 1 == q * cap + (r + 1);
    if r + 1 < cap {
      ModUnique(x + 1, q, r + 1, cap);
      ModUnique(r + 1, 0, r + 1, cap);
    } else {
      assert x + 1 == (q + 1) * cap + 0;
      ModUnique(x + 1, q + 1, 0, cap);
      ModUnique(r + 1, 1, 0, cap);
    }
  }

  lemma ModUnique(x: int, q: int, r: int, cap: nat)
    requires cap > 0 && x == q * cap + r && 0 <= r < cap
    ensures x % cap == r
  {
    var y := x / cap;
    assert x == y * cap + x % cap;
    assert (q - y) * cap == x % cap - r;
    Multiple(q - y, cap);
  }

  lemma Multiple(z: int, cap: int)
    requires cap > 0
    ensures z >= 1 ==> z * cap >= cap
    ensures z <= -1 ==> z * cap <= -cap
  {
    if z >= 1 { assert z * cap == (z - 1) * cap + cap; }
    if z <= -1 { assert z * cap == (z + 1) * cap - cap; }
  }

  /** Every slot is probed within cap steps. */
  lemma IxCovers(home: nat, t: nat, cap: nat) returns (d: nat)
    requires t < cap
    ensures d < cap && Ix(home, d, cap) == t
  {
    var h := home % cap;
    var q := home / cap;
    assert home == q * cap + h;
    if t >= h {
      d := t - h;
      ModUnique(home + d, q, t, cap);
    } else {
      d := t + cap - h;
      assert home + d == (q + 1) * cap + t;
      ModUnique(home + d, q + 1, t, cap);
    }
  }

  /** The first d slots probed from `home` are all occupied. */
  ghost predicate RunFull(slots: Slots, home: nat, d: nat)
    requires |slots| > 0
  {
    forall i: nat :: i < d ==> slots[Ix(home, i, |slots|)] != 0
  }

  /** Key k is stored with position p at distance d from its home slot, behind occupied slots only. */
  ghost predicate StoredAt(hash: Hash, slots: Slots, k: bytes, p: nat, d: nat)
    requires |slots| > 0
  {
    slots[Ix(hash(k), d, |slots|)] == p + 1 && RunFull(slots, hash(k), d)
  }

  ghost predicate Reach(hash: Hash, slots: Slots, k: bytes, p: nat)
    requires |slots| > 0
  {
    exists d: nat :: StoredAt(hash, slots, k, p, d)
  }

  /** An occupied slot names an entry whose key M maps to that entry. */
  ghost predicate SlotSound(ks: seq<bytes>, x: nat, M: map<bytes, nat>) {
    x != 0 ==> x <= |ks| && ks[x - 1] in M && M[ks[x - 1]] == x - 1
  }

  /** A key of M is found by probing. */
  ghost predicate KeySound(hash: Hash, ks: seq<bytes>, slots: Slots, k: bytes, p: nat)
    requires |slots| > 0
  {
    p < |ks| && ks[p] == k && Reach(hash, slots, k, p)
  }

  /** The table stores exactly the map M from keys to entry positions. */
  ghost predicate Holds(hash: Hash, ks: seq<bytes>, slots: Slots, M: map<bytes, nat>) {
    && |slots| > 0
    && (forall t :: 0 <= t < |slots| ==> SlotSound(ks, slots[t], M))
    && (forall k :: k in M ==> KeySound(hash, ks, slots, k, M[k]))
    && Count(slots) == |M|
  }

  lemma EmptyHolds(hash: Hash, ks: seq<bytes>, slots: Slots)
    requires |slots| > 0 && forall t :: 0 <= t < |slots| ==> slots[t] == 0
    ensures Holds(hash, ks, slots, map[])
  {
    EmptyCount(slots);
  }

  /** Where the probe for a key stops. */
  datatype Stop = Hit(pos: nat, at: nat) | Free(at: nat, dist: nat)

  /** Every occupied slot names an entry. */
  ghost predicate Bounded(ks: seq<bytes>, slots: Slots) {
    forall t :: 0 <= t < |slots| ==> slots[t] <= |ks|
  }

  /** The occupied slots of a probe run hold other keys. */
  ghost predicate Others(ks: seq<bytes>, slots: Slots, key: bytes, home: nat, d: nat)
    requires |slots| > 0
  {
    forall i: nat :: i < d ==>
      var x := slots[Ix(home, i, |slots|)];
      x > 0 && x - 1 < |ks| && ks[x - 1] != key
  }

  /** A free slot that ends a run of occupied ones. */
  ghost predicate FreeAt(hash: Hash, slots: Slots, key: bytes, t: nat, d: nat)
    requires |slots| > 0
  {
    t < |slots| && slots[t] == 0 && t == Ix(hash(key), d, |slots|) && RunFull(slots, hash(key), d)
  }

  /** What a stopped probe knows. */
  ghost predicate Stopped(hash: Hash, ks: seq<bytes>, slots: Slots, key: bytes, r: Stop)
    requires |slots| > 0
  {
    match r
    case Hit(pos, t) => t < |slots| && pos < |ks| && ks[pos] == key && slots[t] == pos + 1
    case Free(t, d) => FreeAt(hash, slots, key, t, d) && Others(ks, slots, key, hash(key), d)
  }

  /**
   The probe loop: from the home slot, step until the key or a free slot. It terminates because the table is not full.
   */
  method Probe(hash: Hash, ks: seq<bytes>, slots: Slots, key: bytes) returns (r: Stop)
    requires |slots| > 0 && Bounded(ks, slots) && Count(slots) < |slots|
    ensures Stopped(hash, ks, slots, key, r)
  {
    var cap := |slots|;
    var slot := hash(key) % cap;
    var d: nat := 0;
    while slots[slot] != 0
      invariant slot == Ix(hash(key), d, cap) && d <= cap
      invariant RunFull(slots, hash(key), d)
      invariant Others(ks, slots, key, hash(key), d)
      decreases cap - d
    {
      var pos := slots[slot] - 1;
      if ks[pos] == key {
        return Hit(pos, slot);
      }
      NotFull(slots, hash(key), d);
      IxStep(hash(key), d, cap);
      slot := (slot + 1) % cap;
      d := d + 1;
    }
    return Free(slot, d);
  }

  /** The same walk without comparing keys: step to the first free slot. */
  method ProbeFree(hash: Hash, slots: Slots, key: bytes) returns (slot: nat, ghost d: nat)
    requires |slots| > 0 && Count(slots) < |slots|
    ensures FreeAt(hash, slots, key, slot, d)
  {
    var cap := |slots|;
    slot := hash(key) % cap;
    d := 0;
    while slots[slot] != 0
      invariant slot == Ix(hash(key), d, cap) && d <= cap
      invariant RunFull(slots, hash(key), d)
      decreases cap - d
    {
      NotFull(slots, hash(key), d);
      IxStep(hash(key), d, cap);
      slot := (slot + 1) % cap;
      d := d + 1;
    }
  }

  /** A run of occupied slots of a table that is not full is shorter than the capacity. */
  lemma NotFull(slots: Slots, home: nat, d: nat)
    requires |slots| > 0 && Count(slots) < |slots|
    requires RunFull(slots, home, d)
    ensures d < |slots|
  {
    if d >= |slots| {
      forall t | 0 <= t < |slots| ensures slots[t] != 0 {
        var i := IxCovers(home, t, |slots|);
      }
      FullCount(slots);
    }
  }

  /** On a correct table a stopped probe decides membership: a hit is the mapped position, a free slot means absent. */
  lemma StopDecides(hash: Hash, ks: seq<bytes>, slots: Slots, key: bytes, M: map<bytes, nat>, r: Stop)
    requires Holds(hash, ks, slots, M) && Stopped(hash, ks, slots, key, r)
    ensures r.Hit? ==> key in M && M[key] == r.pos
    ensures r.Free? ==> key !in M
  {
    match r
    case Hit(pos, t) =>
      assert SlotSound(ks, slots[t], M);
    case Free(t, d) =>
      forall k | k in M ensures k != key {
        assert KeySound(hash, ks, slots, k, M[k]);
      }
  }

  lemma HoldsBounded(hash: Hash, ks: seq<bytes>, slots: Slots, M: map<bytes, nat>)
    requires Holds(hash, ks, slots, M)
    ensures Bounded(ks, slots)
  {
    forall t | 0 <= t < |slots| ensures slots[t] <= |ks| {
      assert SlotSound(ks, slots[t], M);
    }
  }

  /** Storing a position for an absent key in the free slot its probe ended at keeps the table correct. */
  lemma StoreHolds(hash: Hash, ks: seq<bytes>, slots: Slots, M: map<bytes, nat>, p: nat, t: nat, d: nat)
    requires Holds(hash, ks, slots, M) && p < |ks| && ks[p] !in M && FreeAt(hash, slots, ks[p], t, d)
    ensures Holds(hash, ks, slots[t := p + 1], M[ks[p] := p])
    ensures Count(slots[t := p + 1]) == Count(slots) + 1
  {
    var s2 := slots[t := p + 1];
    var M2 := M[ks[p] := p];
    CountUpdate(slots, t, p + 1);
    forall u | 0 <= u < |s2| ensures SlotSound(ks, s2[u], M2) {
      assert SlotSound(ks, slots[u], M);
    }
    assert StoredAt(hash, s2, ks[p], p, d);
    forall k | k in M2 ensures KeySound(hash, ks, s2, k, M2[k]) {
      if k != ks[p] {
        assert KeySound(hash, ks, slots, k, M[k]);
        StoreKeepsReach(hash, slots, k, M[k], p, t);
      }
    }
  }

  lemma StoreKeepsReach(hash: Hash, slots: Slots, k: bytes, q: nat, p: nat, t: nat)
    requires |slots| > 0 && Reach(hash, slots, k, q) && t < |slots| && slots[t] == 0
    ensures Reach(hash, slots[t := p + 1], k, q)
  {
    var e: nat :| StoredAt(hash, slots, k, q, e);
    assert StoredAt(hash, slots[t := p + 1], k, q, e);
  }

  /** More entries appended behind the stored positions change nothing. */
  lemma AppendHolds(hash: Hash, ks: seq<bytes>, ks2: seq<bytes>, slots: Slots, M: map<bytes, nat>)
    requires Holds(hash, ks, slots, M) && |ks| <= |ks2| && forall i :: 0 <= i < |ks| ==> ks[i] == ks2[i]
    ensures Holds(hash, ks2, slots, M)
  {
    forall u | 0 <= u < |slots| ensures SlotSound(ks2, slots[u], M) {
      assert SlotSound(ks, slots[u], M);
    }
    forall k | k in M ensures KeySound(hash, ks2, slots, k, M[k]) {
      assert KeySound(hash, ks, slots, k, M[k]);
    }
  }

  // ---- the map a first-wins index stores ----

  /** Each key of ks with its first position. */
  function FirstMap(ks: seq<bytes>): (m: map<bytes, nat>)
    ensures forall k :: k in m ==> m[k] < |ks|
  {
    if |ks| == 0 then map[]
    else
      var m := FirstMap(ks[..|ks| - 1]);
      var k := ks[|ks| - 1];
      if k in m then m else m[k := |ks| - 1]
  }

  lemma {:induction false} FirstMapIsFirstIndex(ks: seq<bytes>, key: bytes)
    ensures key in FirstMap(ks) <==> FirstIndex(ks, key) < |ks|
    ensures key in FirstMap(ks) ==> FirstMap(ks)[key] == FirstIndex(ks, key)
  {
    if |ks| > 0 {
      var pre := ks[..|ks| - 1];
      FirstMapIsFirstIndex(pre, key);
      var f := FirstIndex(pre, key);
      if f < |pre| || ks[|ks| - 1] == key {
        FirstIndexIs(ks, key, f);
      } else {
        FirstIndexIs(ks, key, |ks|);
      }
    }
  }

  lemma FirstMapSnoc(ks: seq<bytes>, key: bytes)
    ensures FirstMap(ks + [key]) == if key in FirstMap(ks) then FirstMap(ks) else FirstMap(ks)[key := |ks|]
  {
    assert (ks + [key])[..|ks|] == ks;
  }

  /** A first-wins table of ks with at least half of its slots free. */
  ghost predicate Indexes(hash: Hash, ks: seq<bytes>, slots: Slots) {
    Holds(hash, ks, slots, FirstMap(ks)) && Count(slots) * 2 <= |slots|
  }

  /** Looking a key up in a correct table gives its first position. */
  lemma StopIsFirstIndex(hash: Hash, ks: seq<bytes>, slots: Slots, key: bytes, r: Stop)
    requires Holds(hash, ks, slots, FirstMap(ks)) && Stopped(hash, ks, slots, key, r)
    ensures r.Hit? ==> FirstIndex(ks, key) == r.pos < |ks|
    ensures r.Free? ==> FirstIndex(ks, key) == |ks|
  {
    StopDecides(hash, ks, slots, key, FirstMap(ks), r);
    FirstMapIsFirstIndex(ks, key);
  }

  /** Storing the next position for a key that is new to the first n keys extends the table to n + 1 keys. */
  lemma StoreNext(hash: Hash, ks: seq<bytes>, slots: Slots, n: nat, t: nat, d: nat)
    requires n < |ks| && Holds(hash, ks, slots, FirstMap(ks[..n])) && ks[n] !in FirstMap(ks[..n])
    requires FreeAt(hash, slots, ks[n], t, d)
    ensures Holds(hash, ks, slots[t := n + 1], FirstMap(ks[..n + 1]))
    ensures Count(slots[t := n + 1]) == Count(slots) + 1
  {
    StoreHolds(hash, ks, slots, FirstMap(ks[..n]), n, t, d);
    assert ks[..n + 1] == ks[..n] + [ks[n]];
    FirstMapSnoc(ks[..n], ks[n]);
  }

  lemma SkipNext(ks: seq<bytes>, n: nat)
    requires n < |ks| && ks[n] in FirstMap(ks[..n])
    ensures FirstMap(ks[..n + 1]) == FirstMap(ks[..n])
  {
    assert ks[..n + 1] == ks[..n] + [ks[n]];
    FirstMapSnoc(ks[..n], ks[n]);
  }

  // ---- rehashing ----

  /** The keys a slot array stores. */
  ghost function StoredKeys(ks: seq<bytes>, slots: Slots): set<bytes>
    requires Bounded(ks, slots)
  {
    set t | 0 <= t < |slots| && slots[t] != 0 :: ks[slots[t] - 1]
  }

  lemma {:induction false} CountSnoc(s: Slots, x: nat)
    ensures Count(s + [x]) == Count(s) + (if x != 0 then 1 else 0)
  {
    if |s| > 0 {
      CountSnoc(s[1..], x);
      assert (s + [x])[1..] == s[1..] + [x];
    }
  }

  lemma StoredKeysSnoc(ks: seq<bytes>, s: Slots, x: nat)
    requires Bounded(ks, s + [x])
    ensures Bounded(ks, s) && x <= |ks|
    ensures StoredKeys(ks, s + [x]) == StoredKeys(ks, s) + (if x != 0 then {ks[x - 1]} else {})
  {
    var b := s + [x];
    assert b[|s|] == x;
    forall t | 0 <= t < |s| ensures s[t] <= |ks| { assert b[t] == s[t]; }
    forall k ensures k in StoredKeys(ks, b) <==> k in StoredKeys(ks, s) + (if x != 0 then {ks[x - 1]} else {}) {
      if k in StoredKeys(ks, s) {
        var t :| 0 <= t < |s| && s[t] != 0 && ks[s[t] - 1] == k;
        assert b[t] == s[t];
      }
    }
  }

  lemma {:induction false} StoredKeysSize(ks: seq<bytes>, s: Slots)
    requires Bounded(ks, s)
    ensures |StoredKeys(ks, s)| <= Count(s)
  {
    if |s| > 0 {
      var n := |s| - 1;
      assert s == s[..n] + [s[n]];
      StoredKeysSnoc(ks, s[..n], s[n]);
      StoredKeysSize(ks, s[..n]);
      CountSnoc(s[..n], s[n]);
    }
  }

  /** When every key is stored once, a slot's key is new to the slots before it. */
  lemma {:induction false} PrefixIsNew(ks: seq<bytes>, s: Slots, k: nat)
    requires Bounded(ks, s) && |StoredKeys(ks, s)| == Count(s) && k < |s|
    ensures Bounded(ks, s[..k]) && (s[k] != 0 ==> ks[s[k] - 1] !in StoredKeys(ks, s[..k]))
    decreases |s|
  {
    hide Bounded, StoredKeys, Count;
    var n := |s| - 1;
    var pre := s[..n];
    assert s == pre + [s[n]];
    StoredKeysSnoc(ks, pre, s[n]);
    CountSnoc(pre, s[n]);
    StoredKeysSize(ks, pre);
    if k < n {
      PrefixIsNew(ks, pre, k);
      assert pre[..k] == s[..k];
    }
  }

  lemma TableStoresKeys(hash: Hash, ks: seq<bytes>, slots: Slots, M: map<bytes, nat>)
    requires Holds(hash, ks, slots, M)
    ensures Bounded(ks, slots) && StoredKeys(ks, slots) == M.Keys && |StoredKeys(ks, slots)| == Count(slots)
  {
    HoldsBounded(hash, ks, slots, M);
    forall k ensures k in StoredKeys(ks, slots) <==> k in M {
      if k in M {
        assert KeySound(hash, ks, slots, k, M[k]);
        var d: nat :| StoredAt(hash, slots, k, M[k], d);
        assert slots[Ix(hash(k), d, |slots|)] != 0;
      }
      if k in StoredKeys(ks, slots) {
        var t :| 0 <= t < |slots| && slots[t] != 0 && ks[slots[t] - 1] == k;
        assert SlotSound(ks, slots[t], M);
      }
    }
  }
}
