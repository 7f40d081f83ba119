/** The filter machine yields exactly the selected subtrees. */
module ItemsCorrect {
  import opened Core
  import opened StreamSpec
  import opened ItemsSpec

  lemma FilterCons(ts: seq<Token>, st: ItemState, e: Event, rest: seq<Event>)
    ensures var f := Feed(ts, st, e);
      Filter(ts, st, [e] + rest) == (if f.emit then [e] else []) + Filter(ts, f.state, rest)
  {
    hide Feed;
    assert ([e] + rest)[0] == e && ([e] + rest)[1..] == rest;
  }

  lemma Assoc<T>(a: seq<T>, b: seq<T>, c: seq<T>)
    ensures a + b + c == a + (b + c)
  {
  }

  /** A container's events around its body. */
  lemma FlattenIs(v: Json, rest: seq<Event>)
    requires v.Arr? || v.Obj?
    ensures Flatten(v) == [Brackets(v).0] + (Body(v, 0) + [Brackets(v).1])
    ensures Flatten(v) + rest == [Brackets(v).0] + (Body(v, 0) + ([Brackets(v).1] + rest))
  {
    var b := Body(v, 0);
    Assoc([Brackets(v).0], b, [Brackets(v).1]);
    hide Body, FlattenItems, FlattenMembers;
    assert [Brackets(v).0] + (b + [Brackets(v).1]) + rest == [Brackets(v).0] + (b + ([Brackets(v).1] + rest));
  }

  // ---- inside an emitted subtree everything is yielded ----

  /** Same open containers as far as an emitted subtree can tell: all but the innermost are untouched. */
  ghost predicate SameBelow(a: ItemState, b: ItemState) {
    && |a.frames| == |b.frames| && a.pending == b.pending && a.emitting && b.emitting && a.emitDepth == b.emitDepth
    && |a.frames| > 0 && a.frames[..|a.frames| - 1] == b.frames[..|b.frames| - 1]
    && a.frames[|a.frames| - 1].isObject == b.frames[|b.frames| - 1].isObject
  }

  lemma {:induction false} ValueEmitted(ts: seq<Token>, st: ItemState, v: Json, rest: seq<Event>)
      returns (st': ItemState)
    requires st.emitting && st.emitDepth >= 1 && |st.frames| > 0
    ensures SameBelow(st, st')
    ensures Filter(ts, st, Flatten(v) + rest) == Flatten(v) + Filter(ts, st', rest)
    decreases v, 1, 0
  {
    if v.Arr? || v.Obj? {
      st' := ContainerEmitted(ts, st, v, rest);
    } else {
      FilterCons(ts, st, Scalar(v), rest);
      st' := st;
    }
  }

  lemma {:induction false} ContainerEmitted(ts: seq<Token>, st: ItemState, v: Json, rest: seq<Event>)
      returns (st': ItemState)
    requires (v.Arr? || v.Obj?) && st.emitting && st.emitDepth >= 1 && |st.frames| > 0
    ensures SameBelow(st, st')
    ensures Filter(ts, st, Flatten(v) + rest) == Flatten(v) + Filter(ts, st', rest)
    decreases v, 0, BodyLength(v) + 1
  {
    hide Flatten, Body, Filter;
    var open, close, body := Brackets(v).0, Brackets(v).1, Body(v, 0);
    var inner := [close] + rest;
    FlattenIs(v, rest);
    FilterCons(ts, st, open, body + inner);
    var st1 := Feed(ts, st, open).state;
    var st2 := BodyEmitted(ts, st1, v, 0, inner);
    FilterCons(ts, st2, close, rest);
    st' := Feed(ts, st2, close).state;
    assert st2.frames[..|st2.frames| - 1] == st.frames;
    FlattenIs(v, Filter(ts, st', rest));
  }

  function Brackets(v: Json): (Event, Event) { if v.Obj? then (BeginObject, EndObject) else (BeginArray, EndArray) }

  function BodyLength(v: Json): nat { if v.Arr? then |v.items| else if v.Obj? then |v.members| else 0 }

  /** The events between the brackets, from child k on. */
  function Body(v: Json, k: nat): seq<Event>
    requires (v.Arr? || v.Obj?) && k <= BodyLength(v)
  {
    if v.Arr? then FlattenItems(v, k) else FlattenMembers(v, k)
  }

  function Child(v: Json, k: nat): (c: Json)
    requires (v.Arr? || v.Obj?) && k < BodyLength(v)
    ensures c < v
  {
    if v.Arr? then v.items[k] else v.members[k].value
  }

  function ChildKey(v: Json, k: nat): seq<Event>
    requires (v.Arr? || v.Obj?) && k < BodyLength(v)
  {
    if v.Arr? then [] else [MapKey(v.members[k].key)]
  }

  lemma BodyStep(v: Json, k: nat)
    requires (v.Arr? || v.Obj?) && k < BodyLength(v)
    ensures Body(v, k) == ChildKey(v, k) + (Flatten(Child(v, k)) + Body(v, k + 1))
  {
  }

  lemma {:induction false} BodyEmitted(ts: seq<Token>, st: ItemState, v: Json, k: nat, rest: seq<Event>)
      returns (st': ItemState)
    requires (v.Arr? || v.Obj?) && k <= BodyLength(v) && st.emitting && st.emitDepth >= 1 && |st.frames| > 0
    ensures SameBelow(st, st')
    ensures Filter(ts, st, Body(v, k) + rest) == Body(v, k) + Filter(ts, st', rest)
    decreases v, 0, BodyLength(v) - k
  {
    if k == BodyLength(v) {
      assert Body(v, k) + rest == rest;
      st' := st;
    } else {
      BodyStep(v, k);
      var c, tail := Child(v, k), Body(v, k + 1);
      var key := ChildKey(v, k);
      hide Body, Flatten, Child, Filter, BodyLength;
      Assoc(key, Flatten(c) + tail, rest);
      Assoc(Flatten(c), tail, rest);
      KeyEmitted(ts, st, v, k, Flatten(c) + (tail + rest));
      var st1 := ValueEmitted(ts, st, c, tail + rest);
      st' := BodyEmitted(ts, st1, v, k + 1, rest);
      hide ChildKey, SameBelow;
      assert SameBelow(st, st') by { SameBelowTransitive(st, st1, st'); }
      var after := Filter(ts, st', rest);
      Assoc(key, Flatten(c) + tail, after);
      Assoc(Flatten(c), tail, after);
    }
  }

  lemma SameBelowTransitive(a: ItemState, b: ItemState, c: ItemState)
    requires SameBelow(a, b) && SameBelow(b, c)
    ensures SameBelow(a, c)
  {
  }

  lemma KeyEmitted(ts: seq<Token>, st: ItemState, v: Json, k: nat, rest: seq<Event>)
    requires (v.Arr? || v.Obj?) && k < BodyLength(v) && st.emitting
    ensures Filter(ts, st, ChildKey(v, k) + rest) == ChildKey(v, k) + Filter(ts, st, rest)
  {
    if v.Obj? {
      FilterCons(ts, st, MapKey(v.members[k].key), rest);
    } else {
      assert ChildKey(v, k) + rest == rest;
    }
  }

  // ---- outside emitted subtrees ----

  /** The selection for a value whose path has consumed m tokens (-1: diverged). */
  function Selected(ts: seq<Token>, m: int, v: Json): seq<Event>
    requires m <= |ts|
  {
    if m < 0 then [] else Select(ts[m..], v)
  }

  predicate Plausible(ts: seq<Token>, st: ItemState) {
    !st.emitting && -1 <= st.pending <= |ts|
  }

  /** A value in its place: its selection is yielded, and the parent moves on. */
  lemma {:induction false} ValueFiltered(ts: seq<Token>, st: ItemState, v: Json, rest: seq<Event>)
      returns (st': ItemState)
    requires Plausible(ts, st)
    ensures Plausible(ts, st') && st'.frames == Bump(st.frames)
    ensures -1 <= ChildMatch(ts, st) <= |ts|
    ensures Filter(ts, st, Flatten(v) + rest) == Selected(ts, ChildMatch(ts, st), v) + Filter(ts, st', rest)
    decreases v, 1, 0
  {
    var m := ChildMatch(ts, st);
    if !v.Arr? && !v.Obj? {
      FilterCons(ts, st, Scalar(v), rest);
      st' := Feed(ts, st, Scalar(v)).state;
      if m >= 0 && m < |ts| { assert ts[m..][0] == ts[m]; }
    } else if m == |ts| {
      st' := MatchedContainer(ts, st, v, rest);
      assert ts[m..] == [];
    } else {
      st' := SearchedContainer(ts, st, v, rest);
    }
  }

  /** A container whose path is the whole prefix is yielded whole. */
  lemma MatchedContainer(ts: seq<Token>, st: ItemState, v: Json, rest: seq<Event>) returns (st': ItemState)
    requires Plausible(ts, st) && (v.Arr? || v.Obj?) && ChildMatch(ts, st) == |ts|
    ensures Plausible(ts, st') && st'.frames == Bump(st.frames)
    ensures Filter(ts, st, Flatten(v) + rest) == Flatten(v) + Filter(ts, st', rest)
  {
    hide Flatten, Body, Filter, ChildMatch;
    var open, close, body := Brackets(v).0, Brackets(v).1, Body(v, 0);
    var inner := [close] + rest;
    FlattenIs(v, rest);
    FilterCons(ts, st, open, body + inner);
    var st1 := Feed(ts, st, open).state;
    assert st1.frames[..|st1.frames| - 1] == st.frames;
    var st2 := BodyEmitted(ts, st1, v, 0, inner);
    FilterCons(ts, st2, close, rest);
    st' := Feed(ts, st2, close).state;
    FlattenIs(v, Filter(ts, st', rest));
  }

  /** The machine is inside container v, whose path has consumed m tokens, before child k. */
  ghost predicate Searching(ts: seq<Token>, st: ItemState, v: Json, m: int, k: nat) {
    && Plausible(ts, st) && -1 <= m < |ts| && |st.frames| > 0
    && st.frames[|st.frames| - 1].isObject == v.Obj? && st.frames[|st.frames| - 1].matchLen == m
    && (v.Arr? ==> st.frames[|st.frames| - 1].nextIndex == k)
  }

  function SelectedBody(ts: seq<Token>, m: int, v: Json, k: nat): seq<Event>
    requires -1 <= m < |ts| && (v.Arr? || v.Obj?) && k <= BodyLength(v)
  {
    if m < 0 then [] else if v.Arr? then SelectItems(ts[m..], v, k) else SelectMembers(ts[m..], v, k)
  }

  /** How far child k of a container that consumed m tokens gets. */
  function ChildLen(ts: seq<Token>, m: int, v: Json, k: nat): (n: int)
    requires -1 <= m < |ts| && (v.Arr? || v.Obj?) && k < BodyLength(v)
    ensures -1 <= n <= |ts|
  {
    if m < 0 then -1
    else if v.Arr? then (if MatchesIndex(ts[m], k) then m + 1 else -1)
    else if MatchesKey(ts[m], v.members[k].key) then m + 1 else -1
  }

  lemma SelectedStep(ts: seq<Token>, m: int, v: Json, k: nat)
    requires -1 <= m < |ts| && (v.Arr? || v.Obj?) && k < BodyLength(v)
    ensures SelectedBody(ts, m, v, k) ==
      Selected(ts, ChildLen(ts, m, v, k), Child(v, k)) + SelectedBody(ts, m, v, k + 1)
  {
    if m >= 0 {
      assert ts[m..][0] == ts[m] && ts[m..][1..] == ts[m + 1..];
    }
  }

  lemma OpenSearched(ts: seq<Token>, st: ItemState, v: Json, rest: seq<Event>) returns (st1: ItemState)
    requires Plausible(ts, st) && (v.Arr? || v.Obj?) && -1 <= ChildMatch(ts, st) < |ts|
    ensures Searching(ts, st1, v, ChildMatch(ts, st), 0) && DropTop(st1.frames) == st.frames
    ensures Filter(ts, st, Flatten(v) + rest) == Filter(ts, st1, Body(v, 0) + ([Brackets(v).1] + rest))
  {
    hide Flatten, Body, Filter, ChildMatch;
    FlattenIs(v, rest);
    FilterCons(ts, st, Brackets(v).0, Body(v, 0) + ([Brackets(v).1] + rest));
    st1 := Feed(ts, st, Brackets(v).0).state;
  }

  lemma CloseSearched(ts: seq<Token>, st: ItemState, v: Json, rest: seq<Event>) returns (st': ItemState)
    requires Plausible(ts, st) && (v.Arr? || v.Obj?) && |st.frames| > 0
    ensures Plausible(ts, st') && st'.frames == Bump(DropTop(st.frames))
    ensures Filter(ts, st, [Brackets(v).1] + rest) == Filter(ts, st', rest)
  {
    hide Filter, ChildMatch, Bump, DropTop;
    FilterCons(ts, st, Brackets(v).1, rest);
    st' := Feed(ts, st, Brackets(v).1).state;
  }

  /** A container on the way to the prefix, or off it: only what its children select is yielded. */
  lemma {:induction false} SearchedContainer(ts: seq<Token>, st: ItemState, v: Json, rest: seq<Event>)
      returns (st': ItemState)
    requires Plausible(ts, st) && (v.Arr? || v.Obj?) && -1 <= ChildMatch(ts, st) < |ts|
    ensures Plausible(ts, st') && st'.frames == Bump(st.frames)
    ensures Filter(ts, st, Flatten(v) + rest) == Selected(ts, ChildMatch(ts, st), v) + Filter(ts, st', rest)
    decreases v, 0, BodyLength(v) + 1
  {
    hide Flatten, Body, Filter, ChildMatch, Feed, Bump;
    var m := ChildMatch(ts, st);
    var st1 := OpenSearched(ts, st, v, rest);
    var st2 := BodyFiltered(ts, st1, v, m, 0, [Brackets(v).1] + rest);
    st' := CloseSearched(ts, st2, v, rest);
    WholeSelection(ts, m, v);
  }

  lemma WholeSelection(ts: seq<Token>, m: int, v: Json)
    requires -1 <= m < |ts| && (v.Arr? || v.Obj?)
    ensures Selected(ts, m, v) == SelectedBody(ts, m, v, 0)
  {
  }

  lemma BodyAssoc(v: Json, k: nat, rest: seq<Event>)
    requires (v.Arr? || v.Obj?) && k < BodyLength(v)
    ensures Body(v, k) + rest == ChildKey(v, k) + (Flatten(Child(v, k)) + (Body(v, k + 1) + rest))
  {
    hide Body, Flatten, Child, ChildKey;
    BodyStep(v, k);
    Assoc(ChildKey(v, k), Flatten(Child(v, k)) + Body(v, k + 1), rest);
    Assoc(Flatten(Child(v, k)), Body(v, k + 1), rest);
  }

  lemma SelectionAssoc(ts: seq<Token>, m: int, v: Json, k: nat, rest: seq<Event>)
    requires -1 <= m < |ts| && (v.Arr? || v.Obj?) && k < BodyLength(v)
    ensures SelectedBody(ts, m, v, k) + rest ==
      Selected(ts, ChildLen(ts, m, v, k), Child(v, k)) + (SelectedBody(ts, m, v, k + 1) + rest)
  {
    hide SelectedBody, Selected, Child, ChildLen;
    SelectedStep(ts, m, v, k);
    Assoc(Selected(ts, ChildLen(ts, m, v, k), Child(v, k)), SelectedBody(ts, m, v, k + 1), rest);
  }

  lemma NoChild(ts: seq<Token>, st: ItemState, v: Json, m: int, rest: seq<Event>)
    requires -1 <= m < |ts| && (v.Arr? || v.Obj?)
    ensures Filter(ts, st, Body(v, BodyLength(v)) + rest) ==
      SelectedBody(ts, m, v, BodyLength(v)) + Filter(ts, st, rest)
  {
    hide Filter;
    assert Body(v, BodyLength(v)) + rest == rest;
    assert SelectedBody(ts, m, v, BodyLength(v)) + Filter(ts, st, rest) == Filter(ts, st, rest);
  }

  lemma NextChild(ts: seq<Token>, st: ItemState, st': ItemState, v: Json, m: int, k: nat)
    requires Searching(ts, st, v, m, k) && Plausible(ts, st') && st'.frames == Bump(st.frames)
    ensures Searching(ts, st', v, m, k + 1) && DropTop(st'.frames) == DropTop(st.frames)
  {
  }

  lemma {:induction false} BodyFiltered(ts: seq<Token>, st: ItemState, v: Json, m: int, k: nat, rest: seq<Event>)
      returns (st': ItemState)
    requires (v.Arr? || v.Obj?) && k <= BodyLength(v) && -1 <= m < |ts| && Searching(ts, st, v, m, k)
    ensures Plausible(ts, st') && |st'.frames| > 0 && DropTop(st'.frames) == DropTop(st.frames)
    ensures Filter(ts, st, Body(v, k) + rest) == SelectedBody(ts, m, v, k) + Filter(ts, st', rest)
    decreases v, 0, BodyLength(v) - k
  {
    if k == BodyLength(v) {
      NoChild(ts, st, v, m, rest);
      st' := st;
    } else {
      hide Body, Flatten, Child, SelectedBody, Selected, ChildKey, ChildLen, ChildMatch, Filter, BodyLength, Searching,
        DropTop, Bump, Feed;
      BodyAssoc(v, k, rest);
      ChildBelow(v, k);
      var after := Body(v, k + 1) + rest;
      var st1 := KeyFiltered(ts, st, v, m, k, Flatten(Child(v, k)) + after);
      var st2 := ValueFiltered(ts, st1, Child(v, k), after);
      NextChild(ts, st1, st2, v, m, k);
      st' := BodyFiltered(ts, st2, v, m, k + 1, rest);
      SelectionAssoc(ts, m, v, k, Filter(ts, st', rest));
    }
  }

  lemma ChildBelow(v: Json, k: nat)
    requires (v.Arr? || v.Obj?) && k < BodyLength(v)
    ensures Child(v, k) < v
  {
  }

  /** A member's key fixes how far its value gets; an element's index has already. */
  lemma KeyFiltered(ts: seq<Token>, st: ItemState, v: Json, m: int, k: nat, rest: seq<Event>) returns (st1: ItemState)
    requires (v.Arr? || v.Obj?) && k < BodyLength(v) && Searching(ts, st, v, m, k)
    ensures Searching(ts, st1, v, m, k) && st1.frames == st.frames && Plausible(ts, st1)
    ensures ChildMatch(ts, st1) == ChildLen(ts, m, v, k)
    ensures Filter(ts, st, ChildKey(v, k) + rest) == Filter(ts, st1, rest)
  {
    st1 := st;
    if v.Obj? {
      FilterCons(ts, st, MapKey(v.members[k].key), rest);
      st1 := Feed(ts, st, MapKey(v.members[k].key)).state;
    } else {
      assert ChildKey(v, k) + rest == rest;
    }
  }

  /**
   The filter yields exactly the event subtrees of the values whose path matches the prefix, in document order, for
   every prefix and every sequence of top-level values.
   */
  lemma {:induction false} FilterSelects(ts: seq<Token>, st: ItemState, vs: seq<Json>)
    requires Plausible(ts, st) && st.frames == []
    ensures Filter(ts, st, FlattenAll(vs)) == SelectAll(ts, vs)
    decreases |vs|
  {
    if |vs| > 0 {
      var st' := ValueFiltered(ts, st, vs[0], FlattenAll(vs[1..]));
      FilterSelects(ts, st', vs[1..]);
      assert ts[0..] == ts;
    }
  }

  /** The filter never takes back what it yielded: over fewer events it yields a prefix. */
  lemma {:induction false} FilterPrefix(ts: seq<Token>, st: ItemState, a: seq<Event>, b: seq<Event>)
    ensures Filter(ts, st, a) <= Filter(ts, st, a + b)
    decreases |a|
  {
    hide Feed;
    if |a| > 0 {
      assert (a + b)[1..] == a[1..] + b;
      FilterPrefix(ts, Feed(ts, st, a[0]).state, a[1..], b);
    }
  }
}
