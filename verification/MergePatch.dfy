/** JSON Merge Patch (RFC 7386 section 2): the recursion, its meaning key by key, and its idempotence. */
module MergePatch {
  import opened Core
  import opened ObjectIndex

  /** MergePatch(Target, Patch) of RFC 7386. */
  function Merge(t: Json, p: Json): (r: Json)
    decreases p, 1
  {
    if !p.Obj? then p else Obj(MergeMembers(Entries(t), p, |p.members|))
  }

  /** The entries a patch works on: a target that is no object counts as an empty one. */
  function Entries(t: Json): seq<Member> {
    if t.Obj? then t.members else []
  }

  /** The target's entries after the first n entries of the patch. */
  function MergeMembers(ms: seq<Member>, p: Json, n: nat): (r: seq<Member>)
    requires p.Obj? && n <= |p.members|
    decreases p, 0, n
  {
    if n == 0 then ms
    else
      var before, e := MergeMembers(ms, p, n - 1), p.members[n - 1];
      if e.value.Null? then RemoveKey(before, e.key)
      else Upsert(before, e.key, Merge(ValueOr(before, e.key), e.value))
  }

  /** The value of a key, or null. */
  function ValueOr(ms: seq<Member>, key: bytes): Json {
    var i := FirstMatch(ms, key);
    if i < |ms| then ms[i].value else Null
  }

  function Get(ms: seq<Member>, key: bytes): Option<Json> {
    var i := FirstMatch(ms, key);
    if i < |ms| then Some(ms[i].value) else None
  }

  // ---- the loop ----

  /** merge_patch_impl: delete on null, insert a null slot for a missing key, merge into the slot. */
  method MergePatchImpl(target: Json, patch: Json) returns (r: Json)
    ensures r == Merge(target, patch)
    decreases patch
  {
    if !patch.Obj? {
      return patch;
    }
    var ms: seq<Member> := if target.Obj? then target.members else [];
    ghost var start := ms;
    for i := 0 to |patch.members|
      invariant ms == MergeMembers(start, patch, i)
    {
      var e := patch.members[i];
      if e.value.Null? {
        ms := RemoveKey(ms, e.key);
      } else {
        ghost var before := ms;
        if FirstMatch(ms, e.key) == |ms| {
          ms := ms + [Member(e.key, Null)];
        }
        SlotThere(before, e.key);
        var at := FirstMatch(ms, e.key);
        var merged := MergePatchImpl(ms[at].value, e.value);
        ms := ms[at := Member(ms[at].key, merged)];
        SlotFilled(before, e.key, merged);
      }
    }
    return Obj(ms);
  }

  lemma SlotThere(ms: seq<Member>, key: bytes)
    ensures var t := Touch(ms, key); FirstMatch(t, key) < |t| && t[FirstMatch(t, key)].value == ValueOr(ms, key)
  {
    if FirstMatch(ms, key) == |ms| { FirstMatchUnique(ms + [Member(key, Null)], key, |ms|); }
  }

  lemma SlotFilled(ms: seq<Member>, key: bytes, v: Json)
    ensures var t := Touch(ms, key); var at := FirstMatch(t, key);
      at < |t| && t[at := Member(t[at].key, v)] == Upsert(ms, key, v)
  {
    if FirstMatch(ms, key) == |ms| { FirstMatchUnique(ms + [Member(key, Null)], key, |ms|); }
  }

  // ---- lookups after one entry ----

  lemma GetUpsert(ms: seq<Member>, key: bytes, v: Json, k: bytes)
    ensures Get(Upsert(ms, key, v), k) == if k == key then Some(v) else Get(ms, k)
  {
    var r := Upsert(ms, key, v);
    var i := FirstMatch(ms, key);
    if k == key {
      FirstMatchUnique(r, k, i);
    } else {
      var j := FirstMatch(ms, k);
      if j < |ms| { FirstMatchUnique(r, k, j); } else { FirstMatchUnique(r, k, |r|); }
    }
  }

  lemma RemoveShifts(ms: seq<Member>, key: bytes)
    requires FirstMatch(ms, key) < |ms|
    ensures var r, p := RemoveKey(ms, key), FirstMatch(ms, key);
      |r| == |ms| - 1 && forall i :: 0 <= i < |r| ==> r[i] == if i < p then ms[i] else ms[i + 1]
  {
  }

  lemma RemoveDistinct(ms: seq<Member>, key: bytes)
    requires DistinctKeys(ms)
    ensures DistinctKeys(RemoveKey(ms, key))
  {
    if FirstMatch(ms, key) < |ms| {
      RemoveShifts(ms, key);
      hide RemoveKey, FirstMatch;
    }
  }

  lemma GetRemove(ms: seq<Member>, key: bytes, k: bytes)
    requires DistinctKeys(ms)
    ensures Get(RemoveKey(ms, key), k) == if k == key then None else Get(ms, k)
    ensures DistinctKeys(RemoveKey(ms, key))
  {
    RemoveDistinct(ms, key);
    var r, p := RemoveKey(ms, key), FirstMatch(ms, key);
    if p < |ms| {
      RemoveShifts(ms, key);
      hide RemoveKey;
      if k == key {
        FirstMatchUnique(r, k, |r|);
      } else {
        var j := FirstMatch(ms, k);
        FirstMatchUnique(r, k, if j < p then j else if j < |ms| then j - 1 else |r|);
      }
    }
  }

  // ---- meaning ----

  lemma {:induction false} MergeKeepsDistinct(ms: seq<Member>, p: Json, n: nat)
    requires p.Obj? && n <= |p.members| && DistinctKeys(ms)
    ensures DistinctKeys(MergeMembers(ms, p, n))
    decreases n
  {
    hide Upsert, RemoveKey, Merge, DistinctKeys;
    if n > 0 {
      MergeKeepsDistinct(ms, p, n - 1);
      var before, e := MergeMembers(ms, p, n - 1), p.members[n - 1];
      if e.value.Null? {
        GetRemove(before, e.key, e.key);
      } else {
        UpsertKeepsDistinct(before, e.key, Merge(ValueOr(before, e.key), e.value));
      }
    }
  }

  /** What the patch's first n entries say about a key. */
  function Said(p: Json, n: nat, key: bytes): Option<Json>
    requires p.Obj? && n <= |p.members|
  {
    Get(p.members[..n], key)
  }

  /** The member a key ends up with: untouched, deleted, or merged with what the target had (null if nothing). */
  function Expected(mine: Option<Json>, said: Option<Json>): Option<Json> {
    match said
    case None => mine
    case Some(Null) => None
    case Some(v) => Some(Merge(if mine.Some? then mine.value else Null, v))
  }

  lemma SaidStep(p: Json, n: nat, key: bytes)
    requires p.Obj? && 0 < n <= |p.members| && DistinctKeys(p.members)
    ensures Said(p, n, key) == if p.members[n - 1].key == key then Some(p.members[n - 1].value) else Said(p, n - 1, key)
    ensures p.members[n - 1].key == key ==> Said(p, n - 1, key) == None
  {
    var a, b := p.members[..n], p.members[..n - 1];
    assert a == b + [p.members[n - 1]];
    if p.members[n - 1].key == key {
      FirstMatchUnique(a, key, n - 1);
      FirstMatchUnique(b, key, n - 1);
    } else {
      var j := FirstMatch(b, key);
      FirstMatchUnique(a, key, if j < |b| then j else n);
    }
  }

  lemma NothingMerged(ms: seq<Member>, p: Json, key: bytes)
    requires p.Obj?
    ensures MergeMembers(ms, p, 0) == ms && Said(p, 0, key) == None
  {
    assert p.members[..0] == [];
  }

  lemma MergeStep(ms: seq<Member>, p: Json, n: nat)
    requires p.Obj? && 0 < n <= |p.members|
    ensures var before := MergeMembers(ms, p, n - 1); var e := p.members[n - 1];
      MergeMembers(ms, p, n) ==
        if e.value.Null? then RemoveKey(before, e.key)
          else Upsert(before, e.key, Merge(ValueOr(before, e.key), e.value))
  {
    hide Merge, RemoveKey, Upsert, ValueOr;
  }

  /** A merge, key by key: the patch decides, and what it does not mention stays. */
  lemma {:induction false} MergeMeaning(ms: seq<Member>, p: Json, n: nat, key: bytes)
    requires p.Obj? && n <= |p.members| && DistinctKeys(ms) && DistinctKeys(p.members)
    ensures Get(MergeMembers(ms, p, n), key) == Expected(Get(ms, key), Said(p, n, key))
    decreases n
  {
    hide Merge, MergeMembers, DistinctKeys, Said, RemoveKey, Upsert;
    if n == 0 {
      NothingMerged(ms, p, key);
    } else {
      MergeMeaning(ms, p, n - 1, key);
      SaidStep(p, n, key);
      MergeKeepsDistinct(ms, p, n - 1);
      MergeStep(ms, p, n);
      var before, e := MergeMembers(ms, p, n - 1), p.members[n - 1];
      if e.value.Null? {
        GetRemove(before, e.key, key);
      } else {
        GetUpsert(before, e.key, Merge(ValueOr(before, e.key), e.value), key);
      }
    }
  }

  /** RFC 7386 on two objects, key by key, whatever the entry orders. */
  lemma MergeIsRfc(t: Json, p: Json, key: bytes)
    requires p.Obj? && DistinctKeys(Entries(t)) && DistinctKeys(p.members)
    ensures Merge(t, p).Obj? && DistinctKeys(Merge(t, p).members)
    ensures Get(Merge(t, p).members, key) == Expected(Get(Entries(t), key), Get(p.members, key))
  {
    MergeMeaning(Entries(t), p, |p.members|, key);
    MergeKeepsDistinct(Entries(t), p, |p.members|);
    assert p.members[..|p.members|] == p.members;
  }

  /** What a target has under a name; one that is no object has nothing. */
  function Mine(t: Json, key: bytes): Option<Json> {
    if t.Obj? then Get(t.members, key) else None
  }

  /**
   Section 2 of RFC 7386: a patch that is no object is the result. An object leaves what it does not mention, deletes
   what it has as null, and merges what it has otherwise into what the target has there, or into null.
   */
  ghost predicate MergesTo(t: Json, p: Json, r: Json)
    decreases p
  {
    if !p.Obj? then r == p
    else
      && r.Obj?
      && (forall key: bytes :: key !in Keys(p.members) ==> Get(r.members, key) == Mine(t, key))
      && forall i :: 0 <= i < |p.members| ==>
           var key, v := p.members[i].key, p.members[i].value; var w := Get(r.members, key);
           if v.Null? then w == None
           else w.Some? && MergesTo(if Mine(t, key).Some? then Mine(t, key).value else Null, v, w.value)
  }

  /** The recursion is that of the standard, at every depth. */
  lemma {:induction false} MergeIsSection2(t: Json, p: Json)
    requires WellKeyed(t) && WellKeyed(p)
    ensures MergesTo(t, p, Merge(t, p))
    decreases p
  {
    if p.Obj? {
      var r := Merge(t, p);
      hide Merge, MergesTo, Get;
      forall key: bytes | key !in Keys(p.members) ensures Get(r.members, key) == Mine(t, key) {
        MergeIsRfc(t, p, key);
        NotSaid(p, key);
        MineIs(t, key);
      }
      forall i | 0 <= i < |p.members|
        ensures var key, v := p.members[i].key, p.members[i].value; var w := Get(r.members, key);
          if v.Null? then w == None
          else w.Some? && MergesTo(if Mine(t, key).Some? then Mine(t, key).value else Null, v, w.value)
      {
        var key, v := p.members[i].key, p.members[i].value;
        MergeIsRfc(t, p, key);
        FirstMatchUnique(p.members, key, i);
        SaidAt(p, i);
        MineIs(t, key);
        MineKeyed(t, key);
        MergeIsSection2(if Mine(t, key).Some? then Mine(t, key).value else Null, v);
      }
      assert r.Obj? by { MergeIsRfc(t, p, []); }
      MergesToIs(t, p, r);
    }
  }

  lemma MergesToIs(t: Json, p: Json, r: Json)
    requires p.Obj? && r.Obj?
    requires forall key: bytes :: key !in Keys(p.members) ==> Get(r.members, key) == Mine(t, key)
    requires forall i :: 0 <= i < |p.members| ==>
      var key, v := p.members[i].key, p.members[i].value; var w := Get(r.members, key);
      if v.Null? then w == None
      else w.Some? && MergesTo(if Mine(t, key).Some? then Mine(t, key).value else Null, v, w.value)
    ensures MergesTo(t, p, r)
  {
  }

  lemma NotSaid(p: Json, key: bytes)
    requires p.Obj? && key !in Keys(p.members)
    ensures Get(p.members, key) == None
  {
  }

  lemma SaidAt(p: Json, i: nat)
    requires p.Obj? && i < |p.members| && FirstMatch(p.members, p.members[i].key) == i
    ensures Get(p.members, p.members[i].key) == Some(p.members[i].value)
  {
  }

  lemma MineIs(t: Json, key: bytes)
    ensures Mine(t, key) == Get(Entries(t), key)
  {
  }

  lemma MineKeyed(t: Json, key: bytes)
    requires WellKeyed(t)
    ensures Mine(t, key).Some? ==> WellKeyed(Mine(t, key).value)
  {
  }

  /** Merging keeps keys distinct at every depth. */
  lemma {:induction false} MergeWellKeyed(t: Json, p: Json)
    requires WellKeyed(t) && WellKeyed(p)
    ensures WellKeyed(Merge(t, p))
    decreases p, 1
  {
    if p.Obj? { MembersWellKeyed(if t.Obj? then t.members else [], p, |p.members|); }
  }

  lemma {:induction false} MembersWellKeyed(ms: seq<Member>, p: Json, n: nat)
    requires p.Obj? && WellKeyed(p) && n <= |p.members| && WellKeyed(Obj(ms))
    ensures WellKeyed(Obj(MergeMembers(ms, p, n)))
    decreases p, 0, n
  {
    if n > 0 {
      MembersWellKeyed(ms, p, n - 1);
      var before, e := MergeMembers(ms, p, n - 1), p.members[n - 1];
      MergeKeepsDistinct(ms, p, n);
      if !e.value.Null? {
        MergeWellKeyed(ValueOr(before, e.key), e.value);
      }
      hide Merge;
    }
  }

  // ---- idempotence ----

  lemma UpsertSame(ms: seq<Member>, key: bytes, v: Json)
    requires Get(ms, key) == Some(v)
    ensures Upsert(ms, key, v) == ms
  {
  }

  /** Applying the same patch again changes nothing, not even the entry order. */
  lemma {:induction false} MergeIdempotent(t: Json, p: Json)
    requires WellKeyed(t) && WellKeyed(p)
    ensures Merge(Merge(t, p), p) == Merge(t, p)
    decreases p, 1
  {
    if p.Obj? {
      var ms := Entries(t);
      var n := |p.members|;
      var done := MergeMembers(ms, p, n);
      assert Merge(t, p) == Obj(done);
      assert Merge(Obj(done), p) == Obj(MergeMembers(done, p, n));
      assert p.members[..n] == p.members;
      MembersIdempotent(ms, p, n);
    }
  }

  /** What the whole patch leaves at the key of its member i - 1. */
  lemma MemberLeft(ms: seq<Member>, p: Json, i: nat)
    requires p.Obj? && DistinctKeys(p.members) && DistinctKeys(ms) && 0 < i <= |p.members|
    ensures var e := p.members[i - 1];
      Get(MergeMembers(ms, p, |p.members|), e.key) ==
        if e.value.Null? then None else Some(Merge(ValueOr(ms, e.key), e.value))
  {
    hide Merge, MergeMembers;
    var n, e := |p.members|, p.members[i - 1];
    MergeMeaning(ms, p, n, e.key);
    assert p.members[..n] == p.members;
    FirstMatchUnique(p.members, e.key, i - 1);
  }

  lemma ValueLeft(ms: seq<Member>, key: bytes)
    ensures Get(ms, key) == None ==> RemoveKey(ms, key) == ms && ValueOr(ms, key) == Null
    ensures forall v :: Get(ms, key) == Some(v) ==> ValueOr(ms, key) == v
  {
  }

  lemma {:induction false} MembersIdempotent(ms: seq<Member>, p: Json, i: nat)
    requires p.Obj? && WellKeyed(p) && WellKeyed(Obj(ms)) && i <= |p.members|
    ensures var done := MergeMembers(ms, p, |p.members|); MergeMembers(done, p, i) == done
    decreases p, 0, i
  {
    hide Merge, MergeMembers, Upsert, RemoveKey, Get, ValueOr, DistinctKeys;
    var done := MergeMembers(ms, p, |p.members|);
    if i == 0 {
      MergeNothing(done, p);
    } else {
      var e := p.members[i - 1];
      MembersIdempotent(ms, p, i - 1);
      MergeStep(done, p, i);
      MemberLeft(ms, p, i);
      ValueLeft(done, e.key);
      if !e.value.Null? {
        var mine := ValueOr(ms, e.key);
        ValueWellKeyed(ms, e.key);
        MergeIdempotent(mine, e.value);
        UpsertSame(done, e.key, Merge(mine, e.value));
      }
    }
  }

  lemma MergeNothing(ms: seq<Member>, p: Json)
    requires p.Obj?
    ensures MergeMembers(ms, p, 0) == ms
  {
  }

  lemma ValueWellKeyed(ms: seq<Member>, key: bytes)
    requires WellKeyed(Obj(ms))
    ensures WellKeyed(ValueOr(ms, key))
  {
  }

  // ---- Object::merge against merge patch ----

  /** No member that a merge patch would read as a deletion; arrays are replaced whole, whatever they hold. */
  ghost predicate NullFree(p: Json) {
    p.Obj? ==> forall i :: 0 <= i < |p.members| ==> !p.members[i].value.Null? && NullFree(p.members[i].value)
  }

  /** Merging into nothing copies. */
  lemma {:induction false} MergeOntoNothing(t: Json, p: Json)
    requires !t.Obj? && WellKeyed(p) && NullFree(p)
    ensures Merge(t, p) == p
    decreases p, 1
  {
    if p.Obj? {
      MembersOntoNothing(p, |p.members|);
      assert p.members[..|p.members|] == p.members;
    }
  }

  lemma {:induction false} MembersOntoNothing(p: Json, n: nat)
    requires p.Obj? && WellKeyed(p) && NullFree(p) && n <= |p.members|
    ensures MergeMembers([], p, n) == p.members[..n]
    decreases p, 0, n
  {
    if n > 0 {
      MembersOntoNothing(p, n - 1);
      MergeOntoNothing(Null, p.members[n - 1].value);
      CopiesEntry(p, n);
    }
  }

  lemma CopiesEntry(p: Json, n: nat)
    requires p.Obj? && DistinctKeys(p.members) && 0 < n <= |p.members| && !p.members[n - 1].value.Null?
    requires MergeMembers([], p, n - 1) == p.members[..n - 1] &&
      Merge(Null, p.members[n - 1].value) == p.members[n - 1].value
    ensures MergeMembers([], p, n) == p.members[..n]
  {
    hide Merge, MergeMembers;
    var before, e := p.members[..n - 1], p.members[n - 1];
    MergeStep([], p, n);
    FirstMatchUnique(before, e.key, n - 1);
    assert p.members[..n] == before + [e];
  }

  /**
   Object::merge is merge patch without deletion: on a patch that deletes nothing the two give the same entries, in the
   same order, whatever the target holds.
   */
  lemma {:induction false} DeepMergeIsMergePatch(ms: seq<Member>, p: Json, n: nat)
    requires p.Obj? && WellKeyed(p) && NullFree(p) && n <= |p.members|
    ensures MergeAll(ms, p.members[..n]) == MergeMembers(ms, p, n)
    decreases p, n
  {
    hide Merge, MergeMembers, MergeAll, MergeEntry, Upsert;
    if n == 0 {
      NothingToMerge(ms, p);
    } else {
      DeepMergeIsMergePatch(ms, p, n - 1);
      MergeStep(ms, p, n);
      MergeAllStep(ms, p, n);
      var e := p.members[n - 1];
      if e.value.Obj? { DeepMergeOfChild(p, n, ValueOr(MergeMembers(ms, p, n - 1), e.key)); }
      EntryMerges(MergeMembers(ms, p, n - 1), e);
    }
  }

  /** The induction hypothesis for the object value of entry n - 1. */
  lemma {:induction false} DeepMergeOfChild(p: Json, n: nat, mine: Json)
    requires p.Obj? && WellKeyed(p) && NullFree(p) && 0 < n <= |p.members| && p.members[n - 1].value.Obj?
    ensures var v := p.members[n - 1].value; mine.Obj? ==> Obj(MergeAll(mine.members, v.members)) == Merge(mine, v)
    decreases p, n - 1, 0
  {
    hide MergeMembers, MergeAll, MergeEntry;
    var v := p.members[n - 1].value;
    if mine.Obj? {
      DeepMergeIsMergePatch(mine.members, v, |v.members|);
      assert v.members[..|v.members|] == v.members;
    }
  }

  lemma NothingToMerge(ms: seq<Member>, p: Json)
    requires p.Obj?
    ensures MergeAll(ms, p.members[..0]) == ms == MergeMembers(ms, p, 0)
  {
  }

  lemma MergeAllStep(ms: seq<Member>, p: Json, n: nat)
    requires p.Obj? && 0 < n <= |p.members|
    ensures MergeAll(ms, p.members[..n]) == MergeEntry(MergeAll(ms, p.members[..n - 1]), p.members[n - 1])
  {
    hide MergeEntry;
    assert p.members[..n][..n - 1] == p.members[..n - 1];
  }

  /** One entry, merged either way. */
  lemma EntryMerges(before: seq<Member>, e: Member)
    requires !e.value.Null? && WellKeyed(e.value) && NullFree(e.value)
    requires var mine := ValueOr(before, e.key);
      mine.Obj? && e.value.Obj? ==> Obj(MergeAll(mine.members, e.value.members)) == Merge(mine, e.value)
    ensures MergeEntry(before, e) == Upsert(before, e.key, Merge(ValueOr(before, e.key), e.value))
  {
    hide MergeAll, MergeMembers;
    var mine := ValueOr(before, e.key);
    if !mine.Obj? || !e.value.Obj? { ReplacesWhole(mine, e.value); }
  }

  lemma ReplacesWhole(mine: Json, v: Json)
    requires (!mine.Obj? || !v.Obj?) && WellKeyed(v) && NullFree(v)
    ensures Merge(mine, v) == v
  {
    if !mine.Obj? { MergeOntoNothing(mine, v); }
  }
}
