/**
 Object storage with its lazy lookup index: absent, fresh or stale, the index never changes what a lookup finds. Slots
 and capacity are 32-bit in the library; entry counts stay within what that can hold.
 */
module ObjectIndex {
  import opened Core
  import opened Probing
  import opened JsonOrder
  import opened JsonOrderLaws

  const INDEX_THRESHOLD: nat := 16
  const MAX_ENTRIES: nat := 0x4000_0000
  const U32: int := 0x1_0000_0000

  /** The heap node behind m_index. */
  class Table {
    var slots: Slots
    var size: nat
    var stale: bool

    constructor (cap: nat)
      ensures |slots| == cap && size == 0 && !stale && forall t :: 0 <= t < cap ==> slots[t] == 0
    {
      slots, size, stale := seq(cap, _ => 0), 0, false;
    }
  }

  // ---- what the operations do to the entries ----

  function RemoveKey(ms: seq<Member>, key: bytes): seq<Member> {
    var p := FirstMatch(ms, key);
    if p < |ms| then ms[..p] + ms[p + 1..] else ms
  }

  function Touch(ms: seq<Member>, key: bytes): seq<Member> {
    if FirstMatch(ms, key) < |ms| then ms else ms + [Member(key, Null)]
  }

  /** merge for one entry of the other object: nested objects merge, everything else replaces. */
  function MergeEntry(ms: seq<Member>, e: Member): (r: seq<Member>)
    ensures |r| <= |ms| + 1
    decreases e
  {
    var p := FirstMatch(ms, e.key);
    if p == |ms| then ms + [e]
    else
      var mine := ms[p].value;
      ms[p := Member(ms[p].key, if mine.Obj? && e.value.Obj? then Obj(MergeAll(mine.members, e.value.members))
        else e.value)]
  }

  function MergeAll(ms: seq<Member>, es: seq<Member>): (r: seq<Member>)
    ensures |r| <= |ms| + |es|
    decreases es
  {
    if |es| == 0 then ms else MergeEntry(MergeAll(ms, es[..|es| - 1]), es[|es| - 1])
  }

  /** What the first entry of that key holds. */
  function Held(ms: seq<Member>, key: bytes): Option<Json> {
    var p := FirstMatch(ms, key);
    if p < |ms| then Some(ms[p].value) else None
  }

  /** operator[] leaves every key what it holds, and a key that holds nothing null. */
  lemma TouchedHolds(ms: seq<Member>, key: bytes, k: bytes)
    ensures Held(Touch(ms, key), k) == if k == key && Held(ms, key).None? then Some(Null) else Held(ms, k)
  {
    var p := FirstMatch(ms, k);
    var t := Touch(ms, key);
    FirstMatchUnique(t, k, if p < |ms| then p else if k == key then |ms| else |t|);
  }

  /** A key holds what the merged object has for it, two objects merging in turn; every other key what it held. */
  lemma {:induction false} MergedHolds(ms: seq<Member>, es: seq<Member>, k: bytes)
    requires DistinctKeys(es)
    ensures Held(MergeAll(ms, es), k) ==
      match Held(es, k)
      case None => Held(ms, k)
      case Some(x) =>
        if x.Obj? && Held(ms, k).Some? && Held(ms, k).value.Obj?
        then Some(Obj(MergeAll(Held(ms, k).value.members, x.members)))
        else Some(x)
    decreases |es|
  {
    if |es| > 0 {
      var init, e := es[..|es| - 1], es[|es| - 1];
      MergedHolds(ms, init, k);
      LastHolds(init, e, k);
      assert init + [e] == es;
      hide MergeAll, MergeEntry, Held, FirstMatch;
      MergedEntryHolds(MergeAll(ms, init), e, k);
      MergeAllLast(ms, es);
    }
  }

  lemma MergeAllLast(ms: seq<Member>, es: seq<Member>)
    requires |es| > 0
    ensures MergeAll(ms, es) == MergeEntry(MergeAll(ms, es[..|es| - 1]), es[|es| - 1])
  {
    hide MergeEntry;
  }

  lemma LastHolds(init: seq<Member>, e: Member, k: bytes)
    requires DistinctKeys(init + [e])
    ensures Held(init + [e], k) == if k == e.key then Some(e.value) else Held(init, k)
    ensures k == e.key ==> Held(init, k).None?
  {
    var es := init + [e];
    var p := FirstMatch(init, k);
    assert forall i :: 0 <= i < |init| ==> init[i] == es[i] && es[i].key != es[|init|].key;
    FirstMatchUnique(es, k, if p < |init| then p else if k == e.key then |init| else |es|);
  }

  lemma MergedEntryHolds(ms: seq<Member>, e: Member, k: bytes)
    ensures Held(MergeEntry(ms, e), k) ==
      if k != e.key then Held(ms, k)
      else if e.value.Obj? && Held(ms, k).Some? && Held(ms, k).value.Obj?
      then Some(Obj(MergeAll(Held(ms, k).value.members, e.value.members)))
      else Some(e.value)
  {
    hide MergeAll;
    var r := MergeEntry(ms, e);
    var p := FirstMatch(ms, k);
    FirstMatchUnique(r, k, if p < |ms| then p else if k == e.key then |ms| else |r|);
  }

  /** Merging a tree of distinct keys into itself would change nothing, so the guard decides no outcome. */
  lemma {:induction false} MergedWithItself(ms: seq<Member>)
    requires WellKeyed(Obj(ms))
    ensures MergeAll(ms, ms) == ms
    decreases ms, 1
  {
    MergedSoFar(ms, |ms|);
    assert ms[..|ms|] == ms;
  }

  lemma {:induction false} MergedSoFar(ms: seq<Member>, n: nat)
    requires WellKeyed(Obj(ms)) && n <= |ms|
    ensures MergeAll(ms, ms[..n]) == ms
    decreases ms, 0, n
  {
    if n > 0 {
      var es, e := ms[..n], ms[n - 1];
      assert es[..|es| - 1] == ms[..n - 1] && es[|es| - 1] == e;
      MergedSoFar(ms, n - 1);
      FirstMatchUnique(ms, e.key, n - 1);
      if e.value.Obj? { MergedWithItself(e.value.members); }
    }
  }

  // ---- distinct keys and the first-wins map ----

  lemma {:induction false} FirstMapKeys(ks: seq<bytes>)
    ensures forall k :: k in FirstMap(ks) <==> k in ks
  {
    forall k ensures k in FirstMap(ks) <==> k in ks {
      FirstMapIsFirstIndex(ks, k);
    }
  }

  lemma FirstMapFewer(a: seq<bytes>, b: seq<bytes>)
    requires forall k :: k in a ==> k in b
    ensures |FirstMap(a)| <= |FirstMap(b)|
  {
    FirstMapKeys(a);
    FirstMapKeys(b);
    SubsetCard(FirstMap(a).Keys, FirstMap(b).Keys);
    assert |FirstMap(a).Keys| == |FirstMap(a)| && |FirstMap(b).Keys| == |FirstMap(b)|;
  }

  lemma {:induction false} SubsetCard(a: set<bytes>, b: set<bytes>)
    requires a <= b
    ensures |a| <= |b|
  {
    assert |b| == |a| + |b - a| by { assert b == a + (b - a); }
  }

  lemma {:induction false} FirstMapAtMost(ks: seq<bytes>)
    ensures |FirstMap(ks)| <= |ks|
  {
    if |ks| > 0 { FirstMapAtMost(ks[..|ks| - 1]); }
  }

  lemma RemovedKeys(ms: seq<Member>, key: bytes)
    ensures |FirstMap(KeySeq(RemoveKey(ms, key)))| <= |FirstMap(KeySeq(ms))|
  {
    var r := RemoveKey(ms, key);
    var p := FirstMatch(ms, key);
    forall k | k in KeySeq(r) ensures k in KeySeq(ms) {
      var i :| 0 <= i < |r| && KeySeq(r)[i] == k;
      var j := if p < |ms| && i >= p then i + 1 else i;
      assert KeySeq(ms)[j] == k;
    }
    FirstMapFewer(KeySeq(r), KeySeq(ms));
  }

  /** static_cast<uint32_t> of a position. */
  function Narrowed(pos: nat): (n: nat)
    requires pos <= MAX_ENTRIES
    ensures n == pos
  {
    pos % U32
  }

  /** One insertion: a repeated key is skipped, a new one takes the free slot its probe ended at. */
  lemma InsertStep(hash: Hash, ks: seq<bytes>, slots: Slots, pos: nat, r: Stop)
    requires pos < |ks| && Holds(hash, ks, slots, FirstMap(ks[..pos])) && Stopped(hash, ks, slots, ks[pos], r)
    ensures r.Hit? ==> Holds(hash, ks, slots, FirstMap(ks[..pos + 1]))
    ensures r.Free? ==> r.at < |slots| && Holds(hash, ks, slots[r.at := pos + 1], FirstMap(ks[..pos + 1]))
    ensures r.Free? ==> Count(slots[r.at := pos + 1]) == Count(slots) + 1
  {
    StopDecides(hash, ks, slots, ks[pos], FirstMap(ks[..pos]), r);
    match r
    case Hit(_, _) => SkipNext(ks, pos);
    case Free(slot, d) => StoreNext(hash, ks, slots, pos, slot, d);
  }

  lemma RoomLeft(hash: Hash, ks: seq<bytes>, slots: Slots, i: nat)
    requires i < |ks| && Holds(hash, ks, slots, FirstMap(ks[..i])) && 2 * |FirstMap(ks)| <= |slots|
    ensures Count(slots) < |slots|
  {
    FirstMapFewer(ks[..i], ks);
    assert Count(slots) == |FirstMap(ks[..i])| && |slots| > 0;
  }

  lemma RefillDone(hash: Hash, ks: seq<bytes>, slots: Slots)
    requires Holds(hash, ks, slots, FirstMap(ks)) && 2 * |FirstMap(ks)| <= |slots|
    ensures Indexes(hash, ks, slots)
  {
  }

  lemma AppendKeeps(hash: Hash, ks: seq<bytes>, slots: Slots, pos: nat)
    requires pos <= |ks| && Indexes(hash, ks[..pos], slots)
    ensures Holds(hash, ks, slots, FirstMap(ks[..pos])) && |slots| > 0 && Count(slots) * 2 <= |slots|
  {
    AppendHolds(hash, ks[..pos], ks, slots, FirstMap(ks[..pos]));
  }

  class Object {
    const hash: Hash
    const resource: nat
    var data: seq<Member>
    var index: Table?

    /** The cache, if any, is right for these entries; a stale one has room for all their keys. */
    ghost predicate Cached(ms: seq<Member>)
      reads this, index
    {
      index != null ==>
        if index.stale then |index.slots| > 0 && 2 * |FirstMap(KeySeq(ms))| <= |index.slots|
        else Indexes(hash, KeySeq(ms), index.slots) && index.size == Count(index.slots)
    }

    ghost predicate Valid()
      reads this, index
    {
      |data| <= MAX_ENTRIES && Cached(data)
    }

    constructor (hash: Hash, resource: nat)
      ensures Valid() && data == [] && index == null && this.hash == hash && this.resource == resource
    {
      this.hash, this.resource := hash, resource;
      data, index := [], null;
    }

    /** Adopt an existing vector, repeated keys and all. */
    constructor Adopt(hash: Hash, resource: nat, ms: seq<Member>)
      requires |ms| <= MAX_ENTRIES
      ensures Valid() && data == ms && index == null && this.hash == hash && this.resource == resource
    {
      this.hash, this.resource := hash, resource;
      data, index := ms, null;
    }

    // ---- the index ----

    /** index_insert for the entry at pos; the table holds the entries before it. */
    method IndexInsert(idx: Table, pos: nat)
      requires pos < |data| <= MAX_ENTRIES && Holds(hash, KeySeq(data), idx.slots, FirstMap(KeySeq(data)[..pos]))
      requires idx.size == Count(idx.slots) < |idx.slots|
      modifies idx
      ensures Holds(hash, KeySeq(data), idx.slots, FirstMap(KeySeq(data)[..pos + 1]))
      ensures |idx.slots| == old(|idx.slots|) && idx.stale == old(idx.stale) &&
        idx.size == Count(idx.slots) <= old(idx.size) + 1
    {
      hide Holds, FirstMap, Count, KeySeq;
      var free := FreeSlotFor(idx.slots, KeySeq(data), pos);
      if free.Some? {
        idx.slots := idx.slots[free.value := Narrowed(pos) + 1];
        idx.size := idx.size + 1;
      }
    }

    /** The probe walk of an insertion: the slot to fill, or None when the key is already there. */
    method FreeSlotFor(slots: Slots, ks: seq<bytes>, pos: nat) returns (free: Option<nat>)
      requires pos < |ks| && Holds(hash, ks, slots, FirstMap(ks[..pos])) && Count(slots) < |slots|
      ensures free.None? ==> Holds(hash, ks, slots, FirstMap(ks[..pos + 1]))
      ensures free.Some? ==> free.value < |slots| && Count(slots[free.value := pos + 1]) == Count(slots) + 1
      ensures free.Some? ==> Holds(hash, ks, slots[free.value := pos + 1], FirstMap(ks[..pos + 1]))
    {
      hide Holds, FirstMap, Stopped, Count, Bounded;
      HoldsBounded(hash, ks, slots, FirstMap(ks[..pos]));
      var r := Probe(hash, ks, slots, ks[pos]);
      InsertStep(hash, ks, slots, pos, r);
      return if r.Hit? then None else Some(r.at);
    }

    /** index_refill: in place, first occurrence wins. */
    method IndexRefill(idx: Table)
      requires |data| <= MAX_ENTRIES && |idx.slots| > 0 && 2 * |FirstMap(KeySeq(data))| <= |idx.slots|
      modifies idx
      ensures |idx.slots| == old(|idx.slots|) && !idx.stale
      ensures Indexes(hash, KeySeq(data), idx.slots) && idx.size == Count(idx.slots)
    {
      hide Holds, FirstMap;
      ghost var ks := KeySeq(data);
      idx.slots := seq(|idx.slots|, _ => 0);
      idx.size := 0;
      idx.stale := false;
      EmptyHolds(hash, ks, idx.slots);
      EmptyCount(idx.slots);
      var i := 0;
      while i < |data|
        invariant i <= |data| && |idx.slots| == old(|idx.slots|) && !idx.stale
        invariant Holds(hash, ks, idx.slots, FirstMap(ks[..i])) && idx.size == Count(idx.slots)
      {
        RoomLeft(hash, ks, idx.slots, i);
        IndexInsert(idx, i);
        i := i + 1;
      }
      assert ks[..i] == ks;
      RefillDone(hash, ks, idx.slots);
    }

    /** index_build. */
    method IndexBuild()
      requires |data| <= MAX_ENTRIES
      modifies this`index
      ensures Valid() && index != null && fresh(index) && !index.stale
    {
      index := null;
      var cap := 32;
      while cap < |data| * 2
        invariant 32 <= cap <= 4 * MAX_ENTRIES
        invariant cap > 32 ==> cap < 4 * |data|
        decreases |data| * 2 - cap
      {
        cap := cap * 2;
      }
      var table := new Table(cap % U32);
      FirstMapAtMost(KeySeq(data));
      IndexRefill(table);
      index := table;
    }

    /** index_ensure, before a comparison. */
    method IndexEnsure()
      requires Valid()
      modifies this`index
      ensures Valid() && (index == old(index) || fresh(index))
    {
      if index == null && |data| > INDEX_THRESHOLD {
        IndexBuild();
      }
    }

    /** index_note_append for the entry just appended at pos. */
    method IndexNoteAppend(pos: nat)
      requires pos + 1 == |data| <= MAX_ENTRIES
      requires index != null ==>
        if index.stale then |index.slots| > 0 && 2 * |FirstMap(KeySeq(data))| <= |index.slots| else Cached(data[..pos])
      modifies this`index, index
      ensures Valid() && (index == old(index) || fresh(index))
    {
      hide Holds, FirstMap;
      if index == null {
        if |data| > INDEX_THRESHOLD {
          IndexBuild();
        }
        return;
      }
      if index.stale {
        IndexRefill(index);
        return;
      }
      if (index.size + 1) * 2 > |index.slots| {
        IndexBuild();
        return;
      }
      ghost var ks := KeySeq(data);
      assert KeySeq(data[..pos]) == ks[..pos];
      AppendKeeps(hash, ks, index.slots, pos);
      IndexInsert(index, pos);
      assert ks[..pos + 1] == ks;
    }

    /** index_after_erase. */
    method IndexAfterErase()
      requires |data| <= MAX_ENTRIES
      requires index != null ==> |index.slots| > 0 && 2 * |FirstMap(KeySeq(data))| <= |index.slots|
      modifies this`index, index
      ensures Valid() && (index == old(index) || index == null)
    {
      if index == null {
        return;
      }
      if |data| <= INDEX_THRESHOLD {
        index := null;
      } else {
        index.stale := true;
      }
    }

    // ---- lookups ----

    /**
     find_slot: the first-match position, or |data| for npos, whatever state the cache is in. A stale cache is refilled
     when `rebuild` is set and bypassed otherwise.
     */
    method FindSlot(key: bytes, rebuild: bool) returns (pos: nat)
      requires Valid()
      modifies index
      ensures Valid() && pos == FirstMatch(data, key)
      ensures index != null && rebuild ==> !index.stale
      ensures index != null ==> |index.slots| == old(|index.slots|)
    {
      if index != null && (rebuild || !index.stale) {
        if index.stale {
          IndexRefill(index);
        }
        pos := ProbeIndex(key);
        return;
      }
      pos := 0;
      while pos < |data| && data[pos].key != key
        invariant pos <= |data| && forall i :: 0 <= i < pos ==> data[i].key != key
      {
        pos := pos + 1;
      }
      FirstMatchUnique(data, key, pos);
    }

    method ProbeIndex(key: bytes) returns (pos: nat)
      requires Valid() && index != null && !index.stale
      ensures pos == FirstMatch(data, key)
    {
      var ks := KeySeq(data);
      HoldsBounded(hash, ks, index.slots, FirstMap(ks));
      FirstMatchIsFirstIndex(data, key);
      var r := Probe(hash, ks, index.slots, key);
      StopIsFirstIndex(hash, ks, index.slots, key, r);
      return if r.Hit? then r.pos else |data|;
    }

    method Contains(key: bytes) returns (r: bool)
      requires Valid()
      modifies index
      ensures Valid() && (r <==> key in Keys(data))
    {
      var pos := FindSlot(key, true);
      r := pos < |data|;
      if !r {
        forall i | 0 <= i < |data| ensures data[i].key != key {
        }
      } else {
        assert data[pos].key == key;
      }
    }

    // ---- writes ----

    /** Append a new entry and note it to the index. */
    method AppendNew(key: bytes, v: Json)
      requires Valid() && |data| < MAX_ENTRIES && FirstMatch(data, key) == |data| && (index != null ==> !index.stale)
      modifies this, index
      ensures Valid() && data == old(data) + [Member(key, v)] && (index == old(index) || fresh(index))
    {
      data := data + [Member(key, v)];
      assert data[..|data| - 1] == old(data);
      IndexNoteAppend(|data| - 1);
    }

    /** An existing entry's value changes; keys and positions do not, so the index stays right. */
    method SetValue(pos: nat, v: Json)
      requires Valid() && pos < |data|
      modifies this`data
      ensures Valid() && data == old(data)[pos := Member(old(data)[pos].key, v)]
    {
      ghost var before := KeySeq(data);
      data := data[pos := Member(data[pos].key, v)];
      assert KeySeq(data) == before;
    }

    /** insert. */
    method Insert(key: bytes, v: Json)
      requires Valid() && |data| < MAX_ENTRIES
      modifies this, index
      ensures Valid() && data == Upsert(old(data), key, v) && (index == old(index) || fresh(index))
    {
      var pos := FindSlot(key, true);
      if pos < |data| {
        SetValue(pos, v);
      } else {
        AppendNew(key, v);
      }
    }

    /** operator[]: the position of the key's entry, appended with a null value when it is missing. */
    method GetOrInsert(key: bytes) returns (pos: nat)
      requires Valid() && |data| < MAX_ENTRIES
      modifies this, index
      ensures Valid() && data == Touch(old(data), key) && pos == FirstMatch(data, key) < |data|
      ensures index == old(index) || fresh(index)
    {
      pos := FindSlot(key, true);
      if pos == |data| {
        AppendNew(key, Null);
        FirstMatchUnique(data, key, pos);
      }
    }

    /** remove: a stale index is bypassed, and left stale. */
    method Remove(key: bytes) returns (found: bool)
      requires Valid()
      modifies this, index
      ensures Valid() && data == RemoveKey(old(data), key) && found == (FirstMatch(old(data), key) < |old(data)|)
      ensures index == old(index) || index == null
    {
      hide FirstMap, KeySeq, FirstMatch, Indexes;
      var pos := FindSlot(key, false);
      if pos == |data| {
        return false;
      }
      KeysFit();
      RemovedKeys(data, key);
      data := data[..pos] + data[pos + 1..];
      IndexAfterErase();
      return true;
    }

    /** Stale or not, the table has room for every key at half load. */
    lemma KeysFit()
      requires Valid()
      ensures index != null ==> |index.slots| > 0 && 2 * |FirstMap(KeySeq(data))| <= |index.slots|
    {
    }

    /** merge: an object merged into itself is left alone. */
    method MergeFrom(other: Object)
      requires Valid() && (this == other || |data| + |other.data| <= MAX_ENTRIES)
      modifies this, index
      ensures Valid() && data == (if this == other then old(data) else MergeAll(old(data), old(other.data)))
      ensures index == old(index) || fresh(index)
    {
      if this == other {
        return;
      }
      Merge(other.data);
    }

    /** merge with the entries of another object. */
    method Merge(es: seq<Member>)
      requires Valid() && |data| + |es| <= MAX_ENTRIES
      modifies this, index
      ensures Valid() && data == MergeAll(old(data), es) && (index == old(index) || fresh(index))
    {
      var i := 0;
      assert es[..0] == [];
      while i < |es|
        invariant i <= |es| && Valid() && data == MergeAll(old(data), es[..i])
        invariant index == old(index) || fresh(index)
      {
        assert es[..i + 1][..i] == es[..i];
        MergeOne(es[i]);
        i := i + 1;
      }
      assert es[..i] == es;
    }

    method MergeOne(e: Member)
      requires Valid() && |data| < MAX_ENTRIES
      modifies this, index
      ensures Valid() && data == MergeEntry(old(data), e) && (index == old(index) || fresh(index))
    {
      var pos := FindSlot(e.key, true);
      if pos == |data| {
        AppendNew(e.key, e.value);
      } else if data[pos].value.Obj? && e.value.Obj? {
        SetValue(pos, Obj(MergeAll(data[pos].value.members, e.value.members)));
      } else {
        SetValue(pos, e.value);
      }
    }

    method Clear()
      modifies this
      ensures Valid() && data == [] && index == null
    {
      index := null;
      data := [];
    }

    /** data(): the raw mutable surface; whatever the caller makes of the entries, no index survives it. */
    method ReplaceData(ms: seq<Member>)
      requires |ms| <= MAX_ENTRIES
      modifies this
      ensures Valid() && data == ms && index == null
    {
      index := null;
      data := ms;
    }

    // ---- moves ----

    /** Move construction: the index goes with the storage. */
    constructor MoveFrom(other: Object)
      requires other.Valid()
      modifies other
      ensures Valid() && data == old(other.data) && index == old(other.index) && resource == other.resource &&
        hash == other.hash
      ensures other.Valid() && other.data == [] && other.index == null
    {
      hash, resource := other.hash, other.resource;
      data, index := other.data, other.index;
      new;
      other.data := [];
      other.index := null;
    }

    /** Move assignment: the index is taken over only when the storage is, that is under the same resource. */
    method MoveAssign(other: Object)
      requires Valid() && other.Valid() && other.hash == hash
      modifies this, other
      ensures Valid() && other.Valid()
      ensures data == old(other.data)
      ensures other != this ==> other.data == [] && other.index == null
      ensures other != this ==> index == if resource == other.resource then old(other.index) else null
      ensures other == this ==> index == old(index)
    {
      if this == other {
        return;
      }
      index := null;
      data := other.data;
      other.data := [];
      if resource == other.resource {
        index := other.index;
      }
      other.index := null;
    }

    // ---- comparison ----

    /** operator==: the side that owns an index is the one looked into. */
    method Equals(other: Object) returns (r: bool)
      requires Valid() && other.Valid()
      requires this != other && index != null ==> index != other.index
      modifies index, other.index, other`index
      ensures Valid() && other.Valid() && (other.index == old(other.index) || fresh(other.index))
      ensures old(other.index) != null || old(index) == null ==>
        r == (|data| == |other.data| && EqEntries(Obj(data), Obj(other.data), 0))
      ensures old(other.index) == null && old(index) != null ==>
        r == (|data| == |other.data| && EqEntries(Obj(other.data), Obj(data), 0))
      ensures WellKeyed(Obj(data)) && WellKeyed(Obj(other.data)) ==> r == Eq(Obj(data), Obj(other.data))
    {
      hide Eq, EqEntries;
      EqUnfolds(data, other.data);
      if |data| != |other.data| {
        return false;
      }
      if index == null && other.index == null {
        other.IndexEnsure();
      }
      if other.index != null || index == null {
        r := other.FindsAll(data);
      } else {
        r := FindsAll(other.data);
      }
    }

    /** Every entry of es is found here with an equal value. */
    method FindsAll(es: seq<Member>) returns (r: bool)
      requires Valid()
      modifies index
      ensures Valid() && r == EqEntries(Obj(es), Obj(data), 0)
    {
      var i := 0;
      while i < |es|
        invariant i <= |es| && Valid() && EqEntries(Obj(es), Obj(data), 0) == EqEntries(Obj(es), Obj(data), i)
      {
        hide Eq;
        var pos := FindSlot(es[i].key, true);
        if pos == |data| || !Eq(data[pos].value, es[i].value) {
          return false;
        }
        i := i + 1;
      }
      return true;
    }
  }

  lemma EqUnfolds(a: seq<Member>, b: seq<Member>)
    ensures Eq(Obj(a), Obj(b)) <==> |a| == |b| && EqEntries(Obj(a), Obj(b), 0)
    ensures WellKeyed(Obj(a)) && WellKeyed(Obj(b)) ==>
      (Eq(Obj(a), Obj(b)) <==> |a| == |b| && EqEntries(Obj(b), Obj(a), 0))
  {
    if WellKeyed(Obj(a)) && WellKeyed(Obj(b)) { EqSymmetric(Obj(a), Obj(b)); }
  }

  // ---- any sequence of operations on two objects ----

  /** The entries of the two objects, the index left out of account. */
  datatype Pair = Pair(mine: seq<Member>, theirs: seq<Member>)

  /**
   Operations on the object at hand, with the other one beside it. DoSwitch turns to the other object, so every
   operation runs on either of them. Moves take place under the same and under different resources.
   */
  datatype Op =
    | DoInsert(key: bytes, value: Json) | DoTouch(key: bytes) | DoRemove(key: bytes) | DoMerge(es: seq<Member>)
    | DoMergeSelf | DoClear | DoReplace(ms: seq<Member>) | DoLookup(key: bytes) | DoCompare
    | DoMoveIn | DoMoveOut | DoMoveSelf | DoMoveConstruct | DoSwitch

  /** DoMoveConstruct: a new object is made from this one, which stays in use as the other one. */
  function Applied(p: Pair, op: Op): Pair {
    match op
    case DoInsert(k, v) => p.(mine := Upsert(p.mine, k, v))
    case DoTouch(k) => p.(mine := Touch(p.mine, k))
    case DoRemove(k) => p.(mine := RemoveKey(p.mine, k))
    case DoMerge(es) => p.(mine := MergeAll(p.mine, es))
    case DoMergeSelf => p
    case DoClear => p.(mine := [])
    case DoReplace(ms) => p.(mine := ms)
    case DoLookup(_) => p
    case DoCompare => p
    case DoMoveIn => Pair(p.theirs, [])
    case DoMoveOut => Pair([], p.mine)
    case DoMoveSelf => p
    case DoMoveConstruct => Pair(p.mine, [])
    case DoSwitch => Pair(p.theirs, p.mine)
  }

  function AppliedAll(p: Pair, ops: seq<Op>): Pair {
    if |ops| == 0 then p else Applied(AppliedAll(p, ops[..|ops| - 1]), ops[|ops| - 1])
  }

  /** Entries an operation can add at most. */
  function Growth(op: Op): nat {
    match op
    case DoInsert(_, _) => 1
    case DoTouch(_) => 1
    case DoMerge(es) => |es|
    case DoReplace(r) => |r|
    case _ => 0
  }

  function TotalGrowth(ops: seq<Op>): nat {
    if |ops| == 0 then 0 else TotalGrowth(ops[..|ops| - 1]) + Growth(ops[|ops| - 1])
  }

  predicate Fits(p: Pair, n: int) { |p.mine| <= n && |p.theirs| <= n }

  /** Two objects of one library (one key hash), each valid, with no index in common. */
  ghost predicate Apart(a: Object, b: Object)
    reads a, b, a.index, b.index
  {
    a.Valid() && b.Valid() && a != b && a.hash == b.hash && (a.index != null ==> a.index != b.index)
  }

  /** o is one of the two objects there were, or a new one; so is its index. */
  twostate predicate From(new o: Object, a: Object, b: Object)
    reads o, a, b
  {
    && (o == a || o == b || fresh(o))
    && (o.index == null || o.index == old(a.index) || o.index == old(b.index) || fresh(o.index))
  }

  method Moved(a: Object, b: Object, op: Op) returns (a': Object, b': Object)
    requires Apart(a, b) && (op.DoMoveIn? || op.DoMoveOut? || op.DoMoveSelf? || op.DoMoveConstruct? || op.DoSwitch?)
    modifies a, b
    ensures Apart(a', b') && Pair(a'.data, b'.data) == Applied(Pair(old(a.data), old(b.data)), op)
    ensures a' == a || a' == b || fresh(a')
    ensures b' == a || b' == b
    ensures a'.index == null || a'.index == old(a.index) || a'.index == old(b.index)
    ensures b'.index == null || b'.index == old(a.index) || b'.index == old(b.index)
  {
    hide Object.Cached;
    a', b' := a, b;
    if op.DoMoveIn? {
      a.MoveAssign(b);
    } else if op.DoMoveOut? {
      b.MoveAssign(a);
    } else if op.DoMoveSelf? {
      a.MoveAssign(a);
    } else if op.DoMoveConstruct? {
      a' := new Object.MoveFrom(a);
      b' := a;
    } else {
      a', b' := b, a;
    }
  }

  /** The operations that stay within one object. */
  method RunAlone(o: Object, op: Op, other: Object)
    requires Apart(o, other) &&
      !(op.DoMoveIn? || op.DoMoveOut? || op.DoMoveSelf? || op.DoMoveConstruct? || op.DoSwitch?)
    requires |o.data| + Growth(op) <= MAX_ENTRIES && Growth(op) <= MAX_ENTRIES
    modifies o, o.index, other, other.index
    ensures Apart(o, other) && Pair(o.data, other.data) == Applied(Pair(old(o.data), old(other.data)), op)
    ensures o.index == null || o.index == old(o.index) || fresh(o.index)
    ensures other.index == null || other.index == old(other.index) || fresh(other.index)
  {
    hide Object.Cached, Object.Valid, Upsert, Touch, RemoveKey, MergeAll, Eq, EqEntries, WellKeyed, FirstMatch;
    match op {
      case DoInsert(k, v) => o.Insert(k, v);
      case DoTouch(k) => var _ := o.GetOrInsert(k);
      case DoRemove(k) => var _ := o.Remove(k);
      case DoMerge(es) => o.Merge(es);
      case DoMergeSelf => o.MergeFrom(o);
      case DoClear => o.Clear();
      case DoReplace(ms) => o.ReplaceData(ms);
      case DoLookup(k) => var _ := o.FindSlot(k, true);
      case DoCompare => var _ := o.Equals(other);
    }
  }

  method RunOp(a: Object, b: Object, op: Op) returns (a': Object, b': Object)
    requires Apart(a, b) && |a.data| + Growth(op) <= MAX_ENTRIES && Growth(op) <= MAX_ENTRIES
    modifies a, a.index, b, b.index
    ensures Apart(a', b') && Pair(a'.data, b'.data) == Applied(Pair(old(a.data), old(b.data)), op)
    ensures From(a', a, b) && From(b', a, b)
  {
    hide Object.Cached, Object.Valid, Applied;
    if op.DoMoveIn? || op.DoMoveOut? || op.DoMoveSelf? || op.DoMoveConstruct? || op.DoSwitch? {
      a', b' := Moved(a, b, op);
    } else {
      RunAlone(a, op, b);
      a', b' := a, b;
    }
  }

  /**
   After any sequence of operations, moves, comparisons and raw replacements on two objects, a lookup in either returns
   the first-match position in the entries those operations leave, and the entries are what the operations say, as if
   there were no index.
   */
  method LookupAfter(o: Object, other: Object, ops: seq<Op>, key: bytes)
      returns (a: Object, b: Object, pos: nat, posOther: nat)
    requires Apart(o, other)
    requires Fits(Pair(o.data, other.data), MAX_ENTRIES - TotalGrowth(ops))
    modifies o, o.index, other, other.index
    ensures Apart(a, b) && Pair(a.data, b.data) == AppliedAll(Pair(old(o.data), old(other.data)), ops)
    ensures pos == FirstMatch(AppliedAll(Pair(old(o.data), old(other.data)), ops).mine, key)
    ensures posOther == FirstMatch(AppliedAll(Pair(old(o.data), old(other.data)), ops).theirs, key)
  {
    hide Object.Cached, Object.Valid, AppliedAll, Applied, TotalGrowth, Growth, FirstMatch;
    ghost var start := Pair(o.data, other.data);
    NoOps(start, ops);
    a, b := o, other;
    var i := 0;
    while i < |ops|
      invariant i <= |ops| && Apart(a, b) && Pair(a.data, b.data) == AppliedAll(start, ops[..i])
      invariant From(a, o, other) && From(b, o, other)
      invariant Fits(Pair(a.data, b.data), MAX_ENTRIES - TotalGrowth(ops) + TotalGrowth(ops[..i]))
    {
      NextOp(start, ops, i);
      GrowthBound(ops, i);
      AppliedFits(Pair(a.data, b.data), ops[i], MAX_ENTRIES - TotalGrowth(ops) + TotalGrowth(ops[..i]));
      a, b := RunOp(a, b, ops[i]);
      i := i + 1;
    }
    assert ops[..|ops|] == ops;
    pos := a.FindSlot(key, true);
    posOther := b.FindSlot(key, true);
  }

  lemma NoOps(p: Pair, ops: seq<Op>)
    ensures AppliedAll(p, ops[..0]) == p && TotalGrowth(ops[..0]) == 0
  {
  }

  lemma NextOp(p: Pair, ops: seq<Op>, i: nat)
    requires i < |ops|
    ensures AppliedAll(p, ops[..i + 1]) == Applied(AppliedAll(p, ops[..i]), ops[i])
    ensures TotalGrowth(ops[..i + 1]) == TotalGrowth(ops[..i]) + Growth(ops[i])
  {
    assert ops[..i + 1][..i] == ops[..i];
  }

  lemma {:induction false} GrowthBound(ops: seq<Op>, i: nat)
    requires i < |ops|
    ensures TotalGrowth(ops[..i]) + Growth(ops[i]) <= TotalGrowth(ops)
    decreases |ops|
  {
    var n := |ops| - 1;
    if i < n {
      GrowthBound(ops[..n], i);
      assert ops[..n][..i] == ops[..i];
    }
  }

  lemma AppliedFits(p: Pair, op: Op, n: int)
    requires Fits(p, n)
    ensures Fits(Applied(p, op), n + Growth(op))
  {
  }
}
