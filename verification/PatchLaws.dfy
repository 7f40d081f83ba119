/** What JSON Patch promises, as laws of PatchSpec. */
module PatchLaws {
  import opened Core
  import opened Pointers
  import opened ObjectIndex
  import opened PatchSpec

  // ---- storing through a reference ----

  lemma ChildOfSet(v: Json, t: bytes, x: Json)
    requires Child(v, t).Done?
    ensures Child(SetChild(v, t, x), t) == Done(x)
    ensures SetChild(v, t, Child(v, t).value) == v
    ensures forall y :: SetChild(SetChild(v, t, x), t, y) == SetChild(v, t, y)
  {
    match v
    case Obj(ms) =>
      var p := FirstMatch(ms, t);
      FirstMatchUnique(ms[p := Member(ms[p].key, x)], t, p);
    case Arr(items) =>
  }

  /** A store does not disturb another child, nor make one. */
  lemma OtherChild(v: Json, t: bytes, u: bytes, x: Json)
    requires Child(v, t).Done? && t != u
    ensures Child(SetChild(v, t, x), u) == Child(v, u)
  {
    match v
    case Obj(ms) =>
      var p, q := FirstMatch(ms, t), FirstMatch(ms, u);
      FirstMatchUnique(ms[p := Member(ms[p].key, x)], u, q);
    case Arr(items) => if StrictIndex(u).Some? { IndexesDiffer(t, u); }
  }

  lemma IndexesDiffer(t: bytes, u: bytes)
    requires StrictIndex(t).Some? && StrictIndex(u).Some? && t != u
    ensures StrictIndex(t) != StrictIndex(u)
  {
    if StrictIndex(t) == StrictIndex(u) { CanonicalUnique(t, u); }
  }

  // ---- the spot an edit makes ----

  /** The slot of an add is new: an absent key, or a concrete array position. */
  predicate CreatesSlot(v: Json, t: bytes) {
    match v
    case Obj(ms) => FirstMatch(ms, t) == |ms|
    case Arr(_) => t != DASH
    case _ => false
  }

  /** The node an add at this path edits exists, and the slot is new there. */
  predicate CreatesSlotAt(v: Json, path: Path)
    requires |path| > 0
    decreases |path|
  {
    if |path| == 1 then CreatesSlot(v, path[0])
    else Child(v, path[0]).Done? && CreatesSlotAt(Child(v, path[0]).value, path[1..])
  }

  lemma AddHereThenRemove(v: Json, t: bytes, x: Json)
    requires AddHere(v, t, x).Done? && CreatesSlot(v, t)
    ensures RemoveHere(AddHere(v, t, x).value, t) == Done(v)
    ensures Existing(AddHere(v, t, x).value, t) == Done(x)
  {
    match v
    case Obj(ms) =>
      var w := ms + [Member(t, x)];
      FirstMatchUnique(w, t, |ms|);
      assert w[..|ms|] + w[|ms| + 1..] == ms;
    case Arr(items) =>
      var i := StrictIndex(t).value;
      var w := items[..i] + [x] + items[i..];
      assert w[..i] + w[i + 1..] == items;
  }

  /** Anywhere else the parent is not restored: an overwritten value is lost, and '-' names no element to remove. */
  lemma AddHereElse(v: Json, t: bytes, x: Json)
    requires AddHere(v, t, x).Done? && !CreatesSlot(v, t)
    ensures RemoveHere(AddHere(v, t, x).value, t) != Done(v)
  {
    if v.Obj? {
      var p := FirstMatch(v.members, t);
      FirstMatchUnique(v.members[p := Member(v.members[p].key, x)], t, p);
    }
  }

  /**
   Remove undoes an add if and only if the add created its slot; and then the added value is what a lookup finds there.
   */
  lemma {:induction false} RemoveUndoesAdd(v: Json, path: Path, x: Json)
    requires |path| > 0 && AddAt(v, path, x).Done?
    ensures RemoveAt(AddAt(v, path, x).value, path) == Done(v) <==> CreatesSlotAt(v, path)
    ensures CreatesSlotAt(v, path) ==> Lookup(AddAt(v, path, x).value, path) == Done(x)
    decreases |path|
  {
    var w := AddAt(v, path, x).value;
    if |path| == 1 {
      if CreatesSlot(v, path[0]) { AddHereThenRemove(v, path[0], x); } else { AddHereElse(v, path[0], x); }
      ExistingIsChild(w, path[0]);
      LookupOne(w, path);
    } else {
      var c := Child(v, path[0]).value;
      RemoveUndoesAdd(c, path[1..], x);
      RemoveBelow(v, path, c, AddAt(c, path[1..], x).value);
    }
  }

  /** Removing below a child just stored gives the old tree back exactly when it gives the old child back. */
  lemma RemoveBelow(v: Json, path: Path, c: Json, c': Json)
    requires |path| > 1 && Child(v, path[0]) == Done(c)
    ensures var w := SetChild(v, path[0], c');
      && (RemoveAt(w, path) == Done(v) <==> RemoveAt(c', path[1..]) == Done(c))
      && Lookup(w, path) == Lookup(c', path[1..])
  {
    hide SetChild, Child;
    ChildOfSet(v, path[0], c');
    var r := RemoveAt(c', path[1..]);
    if r.Done? { ChildOfSet(v, path[0], r.value); }
  }

  lemma LookupOne(v: Json, path: Path)
    requires |path| == 1
    ensures Lookup(v, path) == Child(v, path[0])
  {
    if Child(v, path[0]).Done? { assert Lookup(Child(v, path[0]).value, path[1..]) == Child(v, path[0]); }
  }

  lemma ExistingIsChild(v: Json, t: bytes)
    ensures Existing(v, t) == Child(v, t)
  {
    assert StrictIndex(DASH).None? by { assert DASH[0] == MINUS; }
  }

  /** With an existing key, an add is a replace: removing does not bring the old value back. */
  lemma RemoveDoesNotUndoOverwrite(k: bytes, x: Json, y: Json)
    ensures var v := Obj([Member(k, x)]);
      && AddAt(v, [k], y) == Done(Obj([Member(k, y)]))
      && RemoveAt(Obj([Member(k, y)]), [k]) == Done(Obj([]))
  {
    var ms, ns := [Member(k, x)], [Member(k, y)];
    assert FirstMatch(ms, k) == 0 && FirstMatch(ns, k) == 0;
    assert ms[0 := Member(k, y)] == ns && ns[..0] + ns[1..] == [];
  }

  /** An append names its place by '-', which no remove resolves. */
  lemma RemoveDoesNotUndoAppend(items: seq<Json>, x: Json)
    ensures var v := Arr(items);
      && AddAt(v, [DASH], x) == Done(Arr(items + [x]))
      && RemoveAt(Arr(items + [x]), [DASH]) == Refused(InvalidArrayIndex)
  {
  }

  // ---- resolving the source ----

  lemma {:induction false} SourceIsLookup(v: Json, path: Path)
    requires |path| > 0
    ensures ResolveSource(v, path) == Lookup(v, path)
    decreases |path|
  {
    if |path| == 1 {
      ExistingIsChild(v, path[0]);
      LookupOne(v, path);
    } else if Child(v, path[0]).Done? {
      SourceIsLookup(Child(v, path[0]).value, path[1..]);
    }
  }

  lemma {:induction false} RemovableIsThere(v: Json, path: Path)
    requires |path| > 0
    ensures RemoveAt(v, path).Done? <==> Lookup(v, path).Done?
    ensures RemoveAt(v, path).Refused? ==> RemoveAt(v, path).kind == Lookup(v, path).kind
    decreases |path|
  {
    if |path| == 1 {
      ExistingIsChild(v, path[0]);
      LookupOne(v, path);
    } else if Child(v, path[0]).Done? {
      RemovableIsThere(Child(v, path[0]).value, path[1..]);
    }
  }

  /** A move to another place is a remove followed by an add of what was there, the target path resolved afterwards. */
  lemma MoveIsRemoveThenAdd(v: Json, from: Path, path: Path)
    requires |from| > 0 && from != path && !ProperPrefix(from, path)
    ensures RemoveAt(v, from).Done? <==> Lookup(v, from).Done?
    ensures RemoveAt(v, from).Done? ==>
      MoveTo(v, from, path) == AddAt(RemoveAt(v, from).value, path, Lookup(v, from).value)
    ensures RemoveAt(v, from).Refused? ==> MoveTo(v, from, path) == Refused(RemoveAt(v, from).kind)
  {
    SourceIsLookup(v, from);
    RemovableIsThere(v, from);
  }

  /**
   The other cases of a move: a missing source and the root are refused; the same place is a no-op; a descendant is
   refused.
   */
  lemma MoveSpecialCases(v: Json, from: Path, path: Path)
    ensures |from| == 0 ==> MoveTo(v, from, path) == Refused(RootOperation)
    ensures |from| > 0 && Lookup(v, from).Refused? ==> MoveTo(v, from, path) == Refused(Lookup(v, from).kind)
    ensures |from| > 0 && Lookup(v, from).Done? && from == path ==> MoveTo(v, from, path) == Done(v)
    ensures |from| > 0 && Lookup(v, from).Done? && ProperPrefix(from, path) ==>
      MoveTo(v, from, path) == Refused(MoveIntoDescendant)
  {
    if |from| > 0 { SourceIsLookup(v, from); }
  }

  // ---- refusals ----

  lemma RemoveHereShrinks(v: Json, t: bytes)
    requires RemoveHere(v, t).Done?
    ensures RemoveHere(v, t).value != v
  {
    if v.Obj? { assert |RemoveKey(v.members, t)| < |v.members|; }
  }

  /** A removal that succeeds changes the tree. */
  lemma {:induction false} RemoveChanges(v: Json, path: Path)
    requires RemoveAt(v, path).Done?
    ensures RemoveAt(v, path).value != v
    decreases |path|
  {
    if |path| == 1 {
      RemoveHereShrinks(v, path[0]);
    } else {
      var c := Child(v, path[0]).value;
      RemoveChanges(c, path[1..]);
      ChildOfSet(v, path[0], RemoveAt(c, path[1..]).value);
    }
  }

  /** A refused operation leaves the document as it was, unless it is a move that had taken its source away already. */
  lemma RefusalKeeps(v: Json, op: Json)
    ensures LeftBy(v, op) == v <==> !TakesAway(v, op)
  {
    hide Lookup, RemoveAt;
    if TakesAway(v, op) {
      RemoveChanges(v, MoveSource(op.members, TextField(op.members, K_OP).value).value);
    }
  }

  /** Such a move: the source is there, the target's parent is not. */
  lemma RefusedMoveLosesSource(x: Json)
    ensures var a, b, c := [0x61], [0x62], [0x63]; var v := Obj([Member(a, x)]);
      && MoveTo(v, [a], [b, c]) == Refused(PathNotFound)
      && Takes(v, [a], [b, c]) && LeftByMove(v, [a], [b, c]) == Obj([])
  {
    var a: bytes, b: bytes, c: bytes := [0x61], [0x62], [0x63];
    var ms := [Member(a, x)];
    var v := Obj(ms);
    FirstMatchUnique(ms, a, 0);
    assert ms[..0] + ms[1..] == [];
    LookupOne(v, [a]);
    assert a[0] != b[0];
    assert !ProperPrefix([a], [b, c]) by { assert [b, c][..1] == [b]; assert [b][0] == b && [a][0] == a; }
    assert RemoveAt(v, [a]) == Done(Obj([]));
  }

  // ---- replace ----

  /** The tree differs from v at this path only. */
  lemma {:induction false} ReplaceIsPut(v: Json, path: Path, x: Json)
    ensures ReplaceAt(v, path, x) ==
      match Lookup(v, path) { case Refused(k) => Refused(k) case Done(_) => Done(PutAt(v, path, x)) }
    decreases |path|
  {
    if |path| == 1 {
      ExistingIsChild(v, path[0]);
      LookupOne(v, path);
      if Child(v, path[0]).Done? { PutOne(v, path, x); }
    } else if |path| > 1 && Child(v, path[0]).Done? {
      ReplaceIsPut(Child(v, path[0]).value, path[1..], x);
    }
  }

  lemma PutOne(v: Json, path: Path, x: Json)
    requires |path| == 1 && Lookup(v, path).Done?
    ensures PutAt(v, path, x) == SetChild(v, path[0], x)
  {
    assert PutAt(Child(v, path[0]).value, path[1..], x) == x;
  }

  /** A replaced node is found at its path; putting the old value back restores the tree. */
  lemma {:induction false} PutThenLookup(v: Json, path: Path, x: Json)
    requires Lookup(v, path).Done?
    ensures Lookup(PutAt(v, path, x), path) == Done(x)
    ensures PutAt(PutAt(v, path, x), path, Lookup(v, path).value) == v
    decreases |path|
  {
    if |path| > 0 {
      var c := Child(v, path[0]).value;
      PutThenLookup(c, path[1..], x);
      ChildOfSet(v, path[0], PutAt(c, path[1..], x));
    }
  }

  /** A path that leaves the replaced one at some node sees no change: found or refused, it stays what it was. */
  lemma {:induction false} ReplaceElsewhere(v: Json, path: Path, other: Path, x: Json)
    requires Lookup(v, path).Done?
    requires !(other <= path) && !(path <= other)
    ensures Lookup(PutAt(v, path, x), other) == Lookup(v, other)
    decreases |path|
  {
    var t, u := path[0], other[0];
    var c := Child(v, t).value;
    var w := PutAt(c, path[1..], x);
    if t != u {
      OtherChild(v, t, u, w);
    } else {
      assert path == [t] + path[1..] && other == [t] + other[1..];
      ReplaceElsewhere(c, path[1..], other[1..], x);
      ChildOfSet(v, t, w);
    }
  }

  // ---- editing through the parent ----

  /** An edit is: walk to the parent, edit it, store it back. */
  lemma {:induction false} EditIsPut(v: Json, path: Path, e: Edit)
    requires |path| > 0
    ensures var init, last := path[..|path| - 1], path[|path| - 1];
      var parent := Lookup(v, init);
      if parent.Refused? then EditAt(v, path, e) == Refused(parent.kind)
      else
        var edited := EditHere(e, parent.value, last);
        if edited.Refused? then EditAt(v, path, e) == Refused(edited.kind)
        else EditAt(v, path, e) == Done(PutAt(v, init, edited.value))
    decreases |path|
  {
    hide EditHere;
    if |path| > 1 {
      var init := path[..|path| - 1];
      assert init[0] == path[0] && init[1..] == path[1..][..|path[1..]| - 1];
      if Child(v, path[0]).Done? { EditIsPut(Child(v, path[0]).value, path[1..], e); }
    }
  }

  /** A walk of one more hop. */
  lemma {:induction false} LookupSnoc(v: Json, path: Path, t: bytes)
    ensures Lookup(v, path + [t]) == if Lookup(v, path).Refused? then Lookup(v, path)
      else Child(Lookup(v, path).value, t)
    decreases |path|
  {
    if |path| == 0 {
      assert path + [t] == [t];
      LookupOne(v, [t]);
    } else {
      assert (path + [t])[0] == path[0] && (path + [t])[1..] == path[1..] + [t];
      if Child(v, path[0]).Done? { LookupSnoc(Child(v, path[0]).value, path[1..], t); }
    }
  }

  // ---- whole patches ----

  /** An operation the shape scan lets through is never refused for its shape, its name or its pointers. */
  lemma ShapedOpsApply(v: Json, op: Json)
    requires ShapeError(op).None?
    ensures ApplyOne(v, op).Refused? ==> !ShapeKind(ApplyOne(v, op).kind)
  {
    hide ParsePointer, AddAt, RemoveAt, ReplaceAt, MoveTo, CopyTo, Lookup;
    var ms := op.members;
    var name, path := TextField(ms, K_OP).value, ParsePointer(TextField(ms, K_PATH).value).value;
    EditKinds(v, path, AddEdit(if Field(ms, K_VALUE).Some? then Field(ms, K_VALUE).value else Null));
    EditKinds(v, path, ReplaceEdit(if Field(ms, K_VALUE).Some? then Field(ms, K_VALUE).value else Null));
    EditKinds(v, path, RemoveEdit);
    LookupKinds(v, path);
    if !NeedsValue(name) && name != REMOVE {
      var from := ParsePointer(TextField(ms, K_FROM).value).value;
      MoveKinds(v, from, path);
    }
  }

  /** Tree-walking failures are none of the shape kinds. */
  predicate Walks(r: Outcome<Json>) { r.Refused? ==> !ShapeKind(r.kind) }

  lemma {:induction false} LookupKinds(v: Json, path: Path)
    ensures Walks(Lookup(v, path))
    decreases |path|
  {
    if |path| > 0 && Child(v, path[0]).Done? { LookupKinds(Child(v, path[0]).value, path[1..]); }
  }

  lemma {:induction false} EditAtKinds(v: Json, path: Path, e: Edit)
    requires |path| > 0
    ensures Walks(EditAt(v, path, e))
    decreases |path|
  {
    if |path| > 1 && Child(v, path[0]).Done? { EditAtKinds(Child(v, path[0]).value, path[1..], e); }
  }

  lemma EditKinds(v: Json, path: Path, e: Edit)
    ensures Walks(match e
      case AddEdit(x) => AddAt(v, path, x)
      case RemoveEdit => RemoveAt(v, path)
      case ReplaceEdit(x) => ReplaceAt(v, path, x))
  {
    if |path| > 0 { EditAtKinds(v, path, e); }
  }

  lemma MoveKinds(v: Json, from: Path, path: Path)
    ensures Walks(MoveTo(v, from, path)) && Walks(CopyTo(v, from, path))
  {
    LookupKinds(v, from);
    if |from| > 0 {
      SourceIsLookup(v, from);
      EditAtKinds(v, from, RemoveEdit);
    }
    if Lookup(v, from).Done? {
      var x := Lookup(v, from).value;
      EditKinds(v, path, AddEdit(x));
      if RemoveAt(v, from).Done? { EditKinds(RemoveAt(v, from).value, path, AddEdit(x)); }
    }
  }

  /** Every operation of a scanned patch has a good shape. */
  lemma {:induction false} ScanMeans(ops: seq<Json>, i: nat)
    requires i <= |ops|
    ensures ScanFrom(ops, i).None? <==> forall k :: i <= k < |ops| ==> ShapeError(ops[k]).None?
    decreases |ops| - i
  {
    if i < |ops| { ScanMeans(ops, i + 1); }
  }

  /** After the scan, application fails for semantic reasons only. */
  lemma {:induction false} ApplyKinds(v: Json, ops: seq<Json>, i: nat)
    requires i <= |ops| && forall k :: i <= k < |ops| ==> ShapeError(ops[k]).None?
    ensures ApplyFrom(v, ops, i).Rejected? ==>
      !ShapeKind(ApplyFrom(v, ops, i).kind) && i <= ApplyFrom(v, ops, i).opIndex < |ops|
    decreases |ops| - i
  {
    if i < |ops| {
      ShapedOpsApply(v, ops[i]);
      hide ApplyOne, ShapeError;
      if ApplyOne(v, ops[i]).Done? { ApplyKinds(ApplyOne(v, ops[i]).value, ops, i + 1); }
    }
  }

  lemma PatchKinds(v: Json, ops: seq<Json>)
    requires ScanFrom(ops, 0).None?
    ensures Patch(v, Arr(ops)).Rejected? ==> !ShapeKind(Patch(v, Arr(ops)).kind)
  {
    ScanMeans(ops, 0);
    ApplyKinds(v, ops, 0);
  }

  // ---- a move as a patch ----

  function RemoveOp(path: Path): Json {
    Obj([Member(K_OP, Str(REMOVE)), Member(K_PATH, Str(FormatPointer(path)))])
  }

  function AddOp(path: Path, x: Json): Json {
    Obj([Member(K_OP, Str(ADD)), Member(K_PATH, Str(FormatPointer(path))), Member(K_VALUE, x)])
  }

  function MoveOp(from: Path, path: Path): Json {
    Obj([Member(K_OP, Str(MOVE)), Member(K_FROM, Str(FormatPointer(from))), Member(K_PATH, Str(FormatPointer(path)))])
  }

  function CopyOp(from: Path, path: Path): Json {
    Obj([Member(K_OP, Str(COPY)), Member(K_FROM, Str(FormatPointer(from))), Member(K_PATH, Str(FormatPointer(path)))])
  }

  lemma FieldNames()
    ensures K_OP != K_PATH && K_OP != K_VALUE && K_OP != K_FROM && K_PATH != K_VALUE && K_PATH != K_FROM &&
      K_VALUE != K_FROM
    ensures ADD != REMOVE && MOVE != REMOVE && MOVE != ADD && MOVE != REPLACE && MOVE != TEST && MOVE != COPY
  {
    assert K_OP[0] != K_PATH[0] && K_OP[0] != K_VALUE[0] && K_OP[0] != K_FROM[0];
    assert K_PATH[0] != K_VALUE[0] && K_PATH[0] != K_FROM[0] && K_VALUE[0] != K_FROM[0];
    assert ADD[0] != REMOVE[0] && MOVE[0] != REMOVE[0] && MOVE[0] != ADD[0] && MOVE[0] != TEST[0] && MOVE[0] != COPY[0];
  }

  lemma RemoveOpApplies(v: Json, path: Path)
    ensures ShapeError(RemoveOp(path)).None? && ApplyOne(v, RemoveOp(path)) == RemoveAt(v, path)
  {
    hide ParsePointer, FormatPointer, RemoveAt;
    FieldNames();
    PointerRoundTrip(path);
    var ms := RemoveOp(path).members;
    FirstMatchUnique(ms, K_OP, 0);
    FirstMatchUnique(ms, K_PATH, 1);
  }

  lemma AddOpApplies(v: Json, path: Path, x: Json)
    ensures ShapeError(AddOp(path, x)).None? && ApplyOne(v, AddOp(path, x)) == AddAt(v, path, x)
  {
    hide ParsePointer, FormatPointer, AddAt;
    FieldNames();
    PointerRoundTrip(path);
    var ms := AddOp(path, x).members;
    FirstMatchUnique(ms, K_OP, 0);
    FirstMatchUnique(ms, K_PATH, 1);
    FirstMatchUnique(ms, K_VALUE, 2);
  }

  lemma MoveOpApplies(v: Json, from: Path, path: Path)
    ensures ShapeError(MoveOp(from, path)).None? && ApplyOne(v, MoveOp(from, path)) == MoveTo(v, from, path)
  {
    hide ParsePointer, FormatPointer, MoveTo;
    FieldNames();
    PointerRoundTrip(from);
    PointerRoundTrip(path);
    var ms := MoveOp(from, path).members;
    FirstMatchUnique(ms, K_OP, 0);
    FirstMatchUnique(ms, K_FROM, 1);
    FirstMatchUnique(ms, K_PATH, 2);
  }

  lemma CopyName()
    ensures COPY != REMOVE && COPY != ADD && COPY != REPLACE && COPY != TEST && COPY != MOVE
  {
    assert COPY[0] != REMOVE[0] && COPY[0] != ADD[0] && COPY[0] != REPLACE[0] && COPY[0] != TEST[0];
    assert COPY[0] != MOVE[0];
  }

  lemma CopyOpApplies(v: Json, from: Path, path: Path)
    ensures ShapeError(CopyOp(from, path)).None? && ApplyOne(v, CopyOp(from, path)) == CopyTo(v, from, path)
  {
    hide ParsePointer, FormatPointer, CopyTo;
    FieldNames();
    CopyName();
    PointerRoundTrip(from);
    PointerRoundTrip(path);
    var ms := CopyOp(from, path).members;
    FirstMatchUnique(ms, K_OP, 0);
    FirstMatchUnique(ms, K_FROM, 1);
    FirstMatchUnique(ms, K_PATH, 2);
  }

  lemma OneOp(v: Json, op: Json)
    requires ShapeError(op).None?
    ensures Patch(v, Arr([op])) ==
      match ApplyOne(v, op) { case Done(w) => Patched(w) case Refused(k) => Rejected(k, 0) }
  {
    hide ApplyOne, ShapeError;
    var ops := [op];
    assert ScanFrom(ops, 0) == ScanFrom(ops, 1);
    ApplyStep(v, ops, 0);
    if ApplyOne(v, op).Done? { ApplyStep(ApplyOne(v, op).value, ops, 1); }
  }

  lemma ApplyStep(v: Json, ops: seq<Json>, i: nat)
    requires i <= |ops|
    ensures i == |ops| ==> ApplyFrom(v, ops, i) == Patched(v)
    ensures i < |ops| && ApplyOne(v, ops[i]).Done? ==>
      ApplyFrom(v, ops, i) == ApplyFrom(ApplyOne(v, ops[i]).value, ops, i + 1)
    ensures i < |ops| && ApplyOne(v, ops[i]).Refused? ==> ApplyFrom(v, ops, i) == Rejected(ApplyOne(v, ops[i]).kind, i)
  {
    hide ApplyOne;
  }

  lemma TwoOps(v: Json, op1: Json, op2: Json)
    requires ShapeError(op1).None? && ShapeError(op2).None?
    ensures Patch(v, Arr([op1, op2])) ==
      match ApplyOne(v, op1) {
        case Refused(k) => Rejected(k, 0)
        case Done(w) => match ApplyOne(w, op2) { case Done(u) => Patched(u) case Refused(k) => Rejected(k, 1) }
      }
  {
    hide ApplyOne, ShapeError;
    var ops := [op1, op2];
    assert ScanFrom(ops, 0) == ScanFrom(ops, 1) == ScanFrom(ops, 2);
    ApplyStep(v, ops, 0);
    if ApplyOne(v, op1).Done? {
      var w := ApplyOne(v, op1).value;
      ApplyStep(w, ops, 1);
      if ApplyOne(w, op2).Done? { ApplyStep(ApplyOne(w, op2).value, ops, 2); }
    }
  }

  /** Same tree, or refused for the same reason. */
  predicate SameEnd(a: PatchResult, b: PatchResult) {
    if a.Patched? then a == b else b.Rejected? && a.kind == b.kind
  }

  /**
   As patches: moving what lies at `from` elsewhere ends as removing it and adding it there does, and a source that is
   not there is refused as its removal is.
   */
  lemma MovePatch(v: Json, from: Path, path: Path)
    requires |from| > 0 && from != path && !ProperPrefix(from, path)
    ensures var moved := Patch(v, Arr([MoveOp(from, path)])); var source := Lookup(v, from);
      if source.Done? then SameEnd(moved, Patch(v, Arr([RemoveOp(from), AddOp(path, source.value)])))
      else SameEnd(moved, Patch(v, Arr([RemoveOp(from)])))
  {
    hide MoveTo, RemoveAt, AddAt, Lookup, Patch, ApplyOne, ShapeError, MoveOp, RemoveOp, AddOp;
    MoveOpApplies(v, from, path);
    OneOp(v, MoveOp(from, path));
    RemoveOpApplies(v, from);
    OneOp(v, RemoveOp(from));
    MoveIsRemoveThenAdd(v, from, path);
    if Lookup(v, from).Done? {
      var x := Lookup(v, from).value;
      AddOpApplies(RemoveAt(v, from).value, path, x);
      TwoOps(v, RemoveOp(from), AddOp(path, x));
    }
  }

  // ---- one patch after another ----

  /**
   As patches: copying what lies at `from` ends as adding it does, and a source that is not there is refused as its
   lookup is.
   */
  lemma CopyPatch(v: Json, from: Path, path: Path)
    ensures var copied := Patch(v, Arr([CopyOp(from, path)])); var source := Lookup(v, from);
      if source.Done? then copied == Patch(v, Arr([AddOp(path, source.value)]))
      else copied == Rejected(source.kind, 0)
  {
    hide AddAt, Lookup, Patch, ApplyOne, ShapeError, CopyOp, AddOp;
    CopyOpApplies(v, from, path);
    OneOp(v, CopyOp(from, path));
    if Lookup(v, from).Done? {
      AddOpApplies(v, path, Lookup(v, from).value);
      OneOp(v, AddOp(path, Lookup(v, from).value));
    }
  }

  lemma {:induction false} ApplyConcat(v: Json, p: seq<Json>, q: seq<Json>, i: nat)
    requires i <= |p|
    ensures ApplyFrom(v, p, i).Patched? ==>
      (ApplyFrom(v, p + q, i).Patched? <==> ApplyFrom(ApplyFrom(v, p, i).value, q, 0).Patched?)
    ensures ApplyFrom(v, p, i).Patched? && ApplyFrom(ApplyFrom(v, p, i).value, q, 0).Patched? ==>
      ApplyFrom(v, p + q, i) == ApplyFrom(ApplyFrom(v, p, i).value, q, 0)
    decreases |p| - i
  {
    hide ApplyOne;
    if i == |p| {
      ApplyShift(v, p, q, 0);
    } else {
      assert (p + q)[i] == p[i];
      if ApplyOne(v, p[i]).Done? { ApplyConcat(ApplyOne(v, p[i]).value, p, q, i + 1); }
    }
  }

  /** Operations behind a prefix act as on their own, indexes apart. */
  lemma {:induction false} ApplyShift(v: Json, p: seq<Json>, q: seq<Json>, i: nat)
    requires i <= |q|
    ensures ApplyFrom(v, p + q, |p| + i) ==
      match ApplyFrom(v, q, i) { case Patched(w) => Patched(w) case Rejected(k, n) => Rejected(k, n + |p|) }
    decreases |q| - i
  {
    hide ApplyOne;
    if i < |q| {
      assert (p + q)[|p| + i] == q[i];
      if ApplyOne(v, q[i]).Done? { ApplyShift(ApplyOne(v, q[i]).value, p, q, i + 1); }
    }
  }

  lemma ScanConcat(p: seq<Json>, q: seq<Json>)
    ensures ScanFrom(p + q, 0).None? <==> ScanFrom(p, 0).None? && ScanFrom(q, 0).None?
  {
    hide ShapeError;
    ScanMeans(p, 0);
    ScanMeans(q, 0);
    ScanMeans(p + q, 0);
    var r := p + q;
    assert forall k :: 0 <= k < |p| ==> r[k] == p[k];
    assert forall k :: 0 <= k < |q| ==> r[|p| + k] == q[k];
  }

  /** Two patches that succeed one after the other are one patch: the concatenation. */
  lemma PatchComposes(v: Json, p: seq<Json>, q: seq<Json>)
    requires Patch(v, Arr(p)).Patched? && Patch(Patch(v, Arr(p)).value, Arr(q)).Patched?
    ensures Patch(v, Arr(p + q)) == Patch(Patch(v, Arr(p)).value, Arr(q))
  {
    hide ApplyFrom, ScanFrom;
    ScanConcat(p, q);
    ApplyConcat(v, p, q, 0);
  }
}
