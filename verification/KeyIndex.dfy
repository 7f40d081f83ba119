/**
 The parser's key index for large objects: built once over the entries so far, then asked for every further
 key. On a miss it stores the position the following append will use.
 */
module KeyIndexes {
  import opened Core
  import opened Probing

  ghost predicate DistinctSeq(ks: seq<bytes>) {
    forall i, j :: 0 <= i < j < |ks| ==> ks[i] != ks[j]
  }

  class KeyIndex {
    const hash: Hash
    var slots: Slots
    var count: nat

    /**
     Correct for entries with the keys ks: every key is found at its first position, and half of the slots are free.
     */
    ghost predicate Valid(ks: seq<bytes>)
      reads this
    {
      Indexes(hash, ks, slots) && Count(slots) == count
    }

    constructor (hash: Hash)
      ensures this.hash == hash
    {
      this.hash := hash;
      slots := [];
      count := 0;
    }

    /** insert_slot for a key not in the table: the first free slot of its probe run takes the position. */
    method InsertSlot(ghost ks: seq<bytes>, key: bytes, idx: nat, ghost M: map<bytes, nat>)
      requires Holds(hash, ks, slots, M) && Count(slots) < |slots|
      requires idx < |ks| && ks[idx] == key && key !in M
      modifies this
      ensures Holds(hash, ks, slots, M[key := idx])
      ensures |slots| == old(|slots|) && Count(slots) == old(Count(slots)) + 1 && count == old(count) + 1
    {
      var slot, d := ProbeFree(hash, slots, key);
      StoreHolds(hash, ks, slots, M, idx, slot, d);
      slots := slots[slot := idx + 1];
      count := count + 1;
    }

    /** (Re)build over every entry: capacity at least four times the entry count. */
    method Build(ms: seq<Member>)
      requires DistinctKeys(ms)
      modifies this
      ensures Valid(KeySeq(ms)) && count == |ms| && 4 * count <= |slots|
    {
      hide Holds, FirstMap, Count;
      ghost var ks := KeySeq(ms);
      var cap := 16;
      while cap < |ms| * 4
        invariant cap >= 16
        decreases |ms| * 4 - cap
      {
        cap := cap * 2;
      }
      slots := seq(cap, _ => 0);
      count := 0;
      EmptyHolds(hash, ks, slots);
      var i := 0;
      while i < |ms|
        invariant i <= |ms| && |slots| == cap
        invariant Holds(hash, ks, slots, FirstMap(ks[..i])) && Count(slots) == count == i
      {
        NewKey(ks, i);
        InsertSlot(ks, ms[i].key, i, FirstMap(ks[..i]));
        i := i + 1;
      }
      assert ks[..i] == ks;
    }

    /** Rehash every stored position into a table of twice the size. */
    method Grow(ms: seq<Member>)
      requires Valid(KeySeq(ms))
      modifies this
      ensures Valid(KeySeq(ms)) && |slots| == 2 * old(|slots|) && count == old(count)
    {
      hide Holds, FirstMap, OldTable;
      ghost var ks := KeySeq(ms);
      var before := slots;
      TableIsOld(hash, ks, before, FirstMap(ks));
      slots := seq(2 * |before|, _ => 0);
      count := 0;
      Rehash(ms, before, FirstMap(ks));
    }

    method Rehash(ms: seq<Member>, before: Slots, ghost full: map<bytes, nat>)
      requires OldTable(KeySeq(ms), before, full)
      requires |slots| == 2 * |before| > 0 && count == 0 && forall t :: 0 <= t < |slots| ==> slots[t] == 0
      modifies this
      ensures Holds(hash, KeySeq(ms), slots, full) && |slots| == 2 * |before|
      ensures count == Count(slots) == Count(before)
    {
      hide Holds, OldTable, Rehashed;
      ghost var ks := KeySeq(ms);
      EmptyHolds(hash, ks, slots);
      ghost var M: map<bytes, nat> := map[];
      var s := 0;
      RehashStart(ks, before, full);
      while s < |before|
        invariant s <= |before| && |slots| == 2 * |before|
        invariant Rehashed(ks, before[..s], full, M)
        invariant Holds(hash, ks, slots, M) && Count(slots) == count
      {
        M := RehashSlot(ms, before, s, full, M);
        s := s + 1;
      }
      assert before[..s] == before;
      RehashDone(ks, before, full, M);
      HoldsCount(hash, ks, slots, M);
    }

    /** One slot of the old table. */
    method RehashSlot(ms: seq<Member>, before: Slots, s: nat, ghost full: map<bytes, nat>, ghost M: map<bytes, nat>)
      returns (ghost M2: map<bytes, nat>)
      requires OldTable(KeySeq(ms), before, full) && s < |before| && |slots| == 2 * |before|
      requires Rehashed(KeySeq(ms), before[..s], full, M) && Holds(hash, KeySeq(ms), slots, M) && Count(slots) == count
      modifies this
      ensures |slots| == old(|slots|) && Rehashed(KeySeq(ms), before[..s + 1], full, M2)
      ensures Holds(hash, KeySeq(ms), slots, M2) && Count(slots) == count
    {
      hide Holds, OldTable, Rehashed, FirstIndex;
      ghost var ks := KeySeq(ms);
      M2 := M;
      if before[s] == 0 {
        RehashSkip(ks, before, s, full, M);
        return;
      }
      RehashNew(ks, before, s, full, M);
      var idx := before[s] - 1;
      var key := ms[idx].key;
      RehashStore(ks, before, s, full, M, key, idx);
      HoldsCount(hash, ks, slots, M);
      RehashRoom(ks, before[..s], full, M);
      InsertSlot(ks, key, idx, M);
      M2 := M[key := idx];
    }

    /** First position of the key, or |ms|; on a miss the position |ms| is stored under the key at once. */
    method FindOrInsert(ms: seq<Member>, key: bytes) returns (pos: nat)
      requires Valid(KeySeq(ms))
      modifies this
      ensures pos == FirstMatch(ms, key)
      ensures Valid(if pos == |ms| then KeySeq(ms) + [key] else KeySeq(ms))
    {
      var ks := KeySeq(ms);
      HoldsBounded(hash, ks, slots, FirstMap(ks));
      FirstMatchIsFirstIndex(ms, key);
      var r := Probe(hash, ks, slots, key);
      StopIsFirstIndex(hash, ks, slots, key, r);
      if r.Hit? {
        return r.pos;
      }
      StoreNew(ms, key, r.at, r.dist);
      return |ms|;
    }

    /** The miss path: grow first when the table would be more than half full, then store position |ms|. */
    method StoreNew(ms: seq<Member>, key: bytes, at: nat, ghost dist: nat)
      requires Valid(KeySeq(ms)) && FirstIndex(KeySeq(ms), key) == |ms| && FreeAt(hash, slots, key, at, dist)
      modifies this
      ensures Valid(KeySeq(ms) + [key])
    {
      hide Holds, FirstMap, FirstIndex;
      var slot := at;
      ghost var d := dist;
      if (count + 1) * 2 > |slots| {
        Grow(ms);
        slot, d := ProbeFree(hash, slots, key);
      }
      StoreAppended(hash, KeySeq(ms), slots, key, slot, d);
      slots := slots[slot := |ms| + 1];
      count := count + 1;
    }
  }

  /** What a rehash knows of the old table. */
  ghost predicate OldTable(ks: seq<bytes>, before: Slots, full: map<bytes, nat>) {
    && Bounded(ks, before) && StoredKeys(ks, before) == full.Keys && |StoredKeys(ks, before)| == Count(before)
    && forall t :: 0 <= t < |before| ==> SlotSound(ks, before[t], full)
  }

  /** The keys of M are those the slots `seen` store; M agrees with the full map on them. */
  ghost predicate Rehashed(ks: seq<bytes>, seen: Slots, full: map<bytes, nat>, M: map<bytes, nat>) {
    && Bounded(ks, seen) && M.Keys == StoredKeys(ks, seen) && |M| == Count(seen)
    && forall k :: k in M ==> k in full && M[k] == full[k]
  }

  lemma RehashStart(ks: seq<bytes>, before: Slots, full: map<bytes, nat>)
    ensures before[..0] == [] && Rehashed(ks, before[..0], full, map[])
  {
  }

  lemma RehashNew(ks: seq<bytes>, before: Slots, s: nat, full: map<bytes, nat>, M: map<bytes, nat>)
    requires OldTable(ks, before, full) && s < |before| && Rehashed(ks, before[..s], full, M) && before[s] != 0
    ensures before[s] <= |ks| && ks[before[s] - 1] !in M
    ensures ks[before[s] - 1] in full && full[ks[before[s] - 1]] == before[s] - 1
  {
    assert SlotSound(ks, before[s], full);
    PrefixIsNew(ks, before, s);
  }

  /** One more slot seen. */
  lemma SeenSnoc(ks: seq<bytes>, before: Slots, s: nat)
    requires Bounded(ks, before) && s < |before|
    ensures Bounded(ks, before[..s]) && Bounded(ks, before[..s + 1]) && before[s] <= |ks|
    ensures StoredKeys(ks, before[..s + 1]) ==
      StoredKeys(ks, before[..s]) + (if before[s] != 0 then {ks[before[s] - 1]} else {})
    ensures Count(before[..s + 1]) == Count(before[..s]) + (if before[s] != 0 then 1 else 0)
  {
    PrefixSnoc(before, s);
    PrefixBounded(ks, before, s + 1);
    StoredKeysSnoc(ks, before[..s], before[s]);
    CountSnoc(before[..s], before[s]);
  }

  lemma RehashSkip(ks: seq<bytes>, before: Slots, s: nat, full: map<bytes, nat>, M: map<bytes, nat>)
    requires OldTable(ks, before, full) && s < |before| && Rehashed(ks, before[..s], full, M) && before[s] == 0
    ensures Rehashed(ks, before[..s + 1], full, M)
  {
    hide StoredKeys, Count, Bounded, SlotSound;
    SeenSnoc(ks, before, s);
  }

  lemma RehashStore(ks: seq<bytes>, before: Slots, s: nat, full: map<bytes, nat>, M: map<bytes, nat>, k: bytes, p: nat)
    requires OldTable(ks, before, full) && s < |before| && Rehashed(ks, before[..s], full, M)
    requires before[s] == p + 1 && p < |ks| && ks[p] == k && k !in M && k in full && full[k] == p
    ensures Rehashed(ks, before[..s + 1], full, M[k := p])
  {
    hide StoredKeys, Count, Bounded, SlotSound;
    SeenSnoc(ks, before, s);
    OneMoreKey(M, k, p);
  }

  lemma OneMoreKey(M: map<bytes, nat>, k: bytes, p: nat)
    requires k !in M
    ensures M[k := p].Keys == M.Keys + {k} && |M[k := p]| == |M| + 1
  {
    assert M[k := p].Keys == M.Keys + {k};
    assert |M[k := p].Keys| == |M.Keys| + 1;
  }

  lemma RehashRoom(ks: seq<bytes>, seen: Slots, full: map<bytes, nat>, M: map<bytes, nat>)
    requires Rehashed(ks, seen, full, M)
    ensures |M| <= |seen|
  {
  }

  lemma RehashDone(ks: seq<bytes>, before: Slots, full: map<bytes, nat>, M: map<bytes, nat>)
    requires OldTable(ks, before, full) && Rehashed(ks, before, full, M)
    ensures M == full && |M| == Count(before)
  {
  }

  lemma TableIsOld(hash: Hash, ks: seq<bytes>, slots: Slots, M: map<bytes, nat>)
    requires Holds(hash, ks, slots, M)
    ensures OldTable(ks, slots, M) && |slots| > 0
  {
    TableStoresKeys(hash, ks, slots, M);
  }

  lemma HoldsCount(hash: Hash, ks: seq<bytes>, slots: Slots, M: map<bytes, nat>)
    requires Holds(hash, ks, slots, M)
    ensures |slots| > 0 && Count(slots) == |M|
  {
  }

  lemma NewKey(ks: seq<bytes>, i: nat)
    requires i < |ks| && DistinctSeq(ks)
    ensures ks[i] !in FirstMap(ks[..i])
    ensures FirstMap(ks[..i + 1]) == FirstMap(ks[..i])[ks[i] := i]
  {
    FirstMapIsFirstIndex(ks[..i], ks[i]);
    assert ks[..i + 1] == ks[..i] + [ks[i]];
    FirstMapSnoc(ks[..i], ks[i]);
  }

  lemma PrefixSnoc(s: Slots, k: nat)
    requires k < |s|
    ensures s[..k + 1] == s[..k] + [s[k]]
  {
  }

  lemma PrefixBounded(ks: seq<bytes>, s: Slots, n: nat)
    requires Bounded(ks, s) && n <= |s|
    ensures Bounded(ks, s[..n])
  {
  }

  /** The position of an entry that is yet to be appended may be stored before the entry exists. */
  lemma StoreAppended(hash: Hash, ks: seq<bytes>, slots: Slots, key: bytes, slot: nat, d: nat)
    requires Holds(hash, ks, slots, FirstMap(ks)) && FirstIndex(ks, key) == |ks| && FreeAt(hash, slots, key, slot, d)
    ensures Holds(hash, ks + [key], slots[slot := |ks| + 1], FirstMap(ks + [key]))
    ensures Count(slots[slot := |ks| + 1]) == Count(slots) + 1
  {
    var ks2 := ks + [key];
    FirstMapIsFirstIndex(ks, key);
    AppendHolds(hash, ks, ks2, slots, FirstMap(ks));
    assert ks2[..|ks|] == ks;
    StoreNext(hash, ks2, slots, |ks|, slot, d);
    assert ks2[..|ks| + 1] == ks2;
  }
}
