/**
 The patch engine, step by step: the resolving walks, the edits through the resolved parent, and all-or-nothing
 application over a shadow copy of the target.
 */
module Patch {
  import opened Core
  import opened Pointers
  import opened JsonOrder
  import opened ObjectIndex
  import opened PatchSpec
  import opened PatchLaws

  /** A tree held by reference: the target, or the shadow it is patched in. */
  class Document {
    var root: Json

    constructor (root: Json)
      ensures this.root == root
    {
      this.root := root;
    }
  }

  /** One hop of the resolving walks. */
  method Hop(cur: Json, t: bytes) returns (r: Outcome<Json>)
    ensures r == Child(cur, t)
  {
    match cur {
      case Obj(ms) =>
        var p := FirstMatch(ms, t);
        if p == |ms| {
          return Refused(PathNotFound);
        }
        return Done(ms[p].value);
      case Arr(items) =>
        var index := ParseStrictIndex(t);
        if index.None? {
          return Refused(InvalidArrayIndex);
        }
        if index.value >= |items| {
          return Refused(IndexOutOfRange);
        }
        return Done(items[index.value]);
      case _ =>
        return Refused(TypeMismatch);
    }
  }

  /** resolve_node, and the intermediate hops of resolve_slot. */
  method ResolveNode(root: Json, path: Path) returns (r: Outcome<Json>)
    ensures r == Lookup(root, path)
  {
    var cur := root;
    var i := 0;
    while i < |path|
      invariant i <= |path| && Lookup(root, path[..i]) == Done(cur)
    {
      assert path[..i + 1] == path[..i] + [path[i]];
      LookupSnoc(root, path[..i], path[i]);
      var hop := Hop(cur, path[i]);
      if hop.Refused? {
        RefusedStays(root, path, i + 1);
        return hop;
      }
      cur := hop.value;
      i := i + 1;
    }
    assert path[..i] == path;
    return Done(cur);
  }

  lemma {:induction false} RefusedStays(v: Json, path: Path, i: nat)
    requires i <= |path| && Lookup(v, path[..i]).Refused?
    ensures Lookup(v, path) == Lookup(v, path[..i])
    decreases |path| - i
  {
    if i < |path| {
      assert path[..i + 1] == path[..i] + [path[i]];
      LookupSnoc(v, path[..i], path[i]);
      RefusedStays(v, path, i + 1);
    } else {
      assert path[..i] == path;
    }
  }

  datatype Slot = Slot(parent: Json, token: bytes, isObject: bool, index: nat)
  datatype SlotMode = MustExist | MayCreate

  /** Where the last token of a pointer lands, relative to its parent. */
  function SlotOf(parent: Json, t: bytes, mode: SlotMode): Outcome<Slot> {
    match parent
    case Obj(ms) =>
      if mode.MustExist? && FirstMatch(ms, t) == |ms| then Refused(PathNotFound) else Done(Slot(parent, t, true, 0))
    case Arr(items) =>
      if t == DASH then (if mode.MustExist? then Refused(InvalidArrayIndex) else Done(Slot(parent, t, false, |items|)))
      else
        (match StrictIndex(t)
         case None => Refused(InvalidArrayIndex)
         case Some(i) =>
           if (if mode.MayCreate? then i > |items| else i >= |items|) then Refused(IndexOutOfRange)
           else Done(Slot(parent, t, false, i)))
    case _ => Refused(TypeMismatch)
  }

  /** resolve_slot. */
  method ResolveSlot(root: Json, path: Path, mode: SlotMode) returns (r: Outcome<Slot>)
    requires |path| > 0
    ensures var parent := Lookup(root, path[..|path| - 1]);
      r == if parent.Refused? then Refused(parent.kind) else SlotOf(parent.value, path[|path| - 1], mode)
  {
    var walked := ResolveNode(root, path[..|path| - 1]);
    if walked.Refused? {
      return Refused(walked.kind);
    }
    var cur, token := walked.value, path[|path| - 1];
    match cur {
      case Obj(ms) =>
        if mode.MustExist? && FirstMatch(ms, token) == |ms| {
          return Refused(PathNotFound);
        }
        return Done(Slot(cur, token, true, 0));
      case Arr(items) =>
        if token == DASH {
          if !mode.MayCreate? {
            return Refused(InvalidArrayIndex);
          }
          return Done(Slot(cur, token, false, |items|));
        }
        var index := ParseStrictIndex(token);
        if index.None? {
          return Refused(InvalidArrayIndex);
        }
        var tooFar := if mode.MayCreate? then index.value > |items| else |items| == 0 || index.value >= |items|;
        if tooFar {
          return Refused(IndexOutOfRange);
        }
        return Done(Slot(cur, token, false, index.value));
      case _ =>
        return Refused(TypeMismatch);
    }
  }

  /** The slot decides an edit exactly as the parent edit does. */
  lemma SlotEdits(parent: Json, t: bytes, e: Edit)
    ensures var s := SlotOf(parent, t, if e.AddEdit? then MayCreate else MustExist);
      if s.Refused? then EditHere(e, parent, t) == Refused(s.kind)
      else EditHere(e, parent, t) == Done(Edited(s.value, e))
  {
    ExistingIsChild(parent, t);
    if parent.Arr? && e.AddEdit? && t == DASH {
      var items := parent.items;
      assert items[..|items|] + [e.x] + items[|items|..] == items + [e.x];
    }
  }

  /** The parent after the edit of a resolved slot. */
  function Edited(s: Slot, e: Edit): Json {
    match s.parent
    case Obj(ms) =>
      (match e
       case AddEdit(x) => Obj(Upsert(ms, s.token, x))
       case RemoveEdit => Obj(RemoveKey(ms, s.token))
       case ReplaceEdit(x) => Obj(Upsert(ms, s.token, x)))
    case Arr(items) =>
      if s.index > |items| then s.parent
      else
        (match e
         case AddEdit(x) => Arr(items[..s.index] + [x] + items[s.index..])
         case RemoveEdit => if s.index < |items| then Arr(items[..s.index] + items[s.index + 1..]) else s.parent
         case ReplaceEdit(x) => if s.index < |items| then Arr(items[s.index := x]) else s.parent)
    case _ => s.parent
  }

  /** Resolve the slot, edit its parent, store the parent back. */
  method EditThrough(doc: Document, path: Path, e: Edit) returns (error: Option<Kind>)
    requires |path| > 0
    modifies doc
    ensures var w := EditAt(old(doc.root), path, e);
      if w.Done? then error.None? && doc.root == w.value else error == Some(w.kind) && doc.root == old(doc.root)
  {
    hide EditAt, EditHere, PutAt, SlotOf, Edited;
    EditIsPut(doc.root, path, e);
    var r := ResolveSlot(doc.root, path, if e.AddEdit? then MayCreate else MustExist);
    var parent := Lookup(doc.root, path[..|path| - 1]);
    if parent.Done? { SlotEdits(parent.value, path[|path| - 1], e); }
    if r.Refused? {
      return Some(r.kind);
    }
    doc.root := PutAt(doc.root, path[..|path| - 1], Edited(r.value, e));
    return None;
  }

  /** insert_at. */
  method InsertAt(doc: Document, path: Path, x: Json) returns (error: Option<Kind>)
    modifies doc
    ensures Applied(AddAt(old(doc.root), path, x), old(doc.root), error, doc.root)
  {
    if |path| == 0 {
      doc.root := x;
      return None;
    }
    error := EditThrough(doc, path, AddEdit(x));
  }

  /** The edit's result is in place, or its refusal is reported and the document holds what the refusal leaves. */
  predicate Applied(w: Outcome<Json>, left: Json, error: Option<Kind>, after: Json) {
    if w.Done? then error.None? && after == w.value else error == Some(w.kind) && after == left
  }

  method ApplyMove(doc: Document, from: Path, path: Path) returns (error: Option<Kind>)
    modifies doc
    ensures Applied(MoveTo(old(doc.root), from, path), LeftByMove(old(doc.root), from, path), error, doc.root)
  {
    hide Lookup, ResolveSource, EditAt;
    if |from| == 0 {
      return Some(RootOperation);
    }
    var source := ResolveNode(doc.root, from);
    SourceIsLookup(doc.root, from);
    RemovableIsThere(doc.root, from);
    if source.Refused? {
      return Some(source.kind);
    }
    if from == path {
      return None;
    }
    if |from| < |path| && path[..|from|] == from {
      return Some(MoveIntoDescendant);
    }
    error := EditThrough(doc, from, RemoveEdit);
    if error.Some? {
      return;
    }
    error := InsertAt(doc, path, source.value);
  }

  method ApplyWithFrom(doc: Document, ms: seq<Member>, name: bytes, path: Path) returns (error: Option<Kind>)
    requires !NeedsValue(name) && (name == MOVE || name == COPY) && name != REMOVE
    modifies doc
    ensures Applied(ApplyNamed(old(doc.root), ms, name, path), LeftByNamed(old(doc.root), ms, name, path), error,
      doc.root)
  {
    hide ParsePointer, Lookup, AddAt, MoveTo, RemoveAt, ReplaceAt, TestAt;
    var fromText := TextField(ms, K_FROM);
    if fromText.None? {
      return Some(InvalidPatchDocument);
    }
    var from := ParseJsonPointer(fromText.value);
    if from.None? {
      return Some(InvalidPointer);
    }
    assert COPY[0] != MOVE[0];
    if name == COPY {
      var source := ResolveNode(doc.root, from.value);
      if source.Refused? {
        return Some(source.kind);
      }
      error := InsertAt(doc, path, source.value);
      return;
    }
    error := ApplyMove(doc, from.value, path);
  }

  method ApplyWithValue(doc: Document, ms: seq<Member>, name: bytes, path: Path) returns (error: Option<Kind>)
    requires NeedsValue(name) && name != REMOVE
    modifies doc
    ensures Applied(ApplyNamed(old(doc.root), ms, name, path), old(doc.root), error, doc.root)
  {
    hide Lookup, MoveTo, CopyTo, RemoveAt, EditAt, Eq, ParsePointer;
    var value := Field(ms, K_VALUE);
    if value.None? {
      return Some(InvalidPatchDocument);
    }
    if name == ADD {
      error := InsertAt(doc, path, value.value);
    } else if name == REPLACE {
      if |path| == 0 {
        doc.root := value.value;
        return None;
      }
      error := EditThrough(doc, path, ReplaceEdit(value.value));
    } else {
      var node := ResolveNode(doc.root, path);
      if node.Refused? {
        return Some(node.kind);
      }
      error := if Eq(node.value, value.value) then None else Some(TestFailed);
    }
  }

  /** apply_one. */
  method ApplyOneTo(doc: Document, op: Json) returns (error: Option<Kind>)
    modifies doc
    ensures Applied(ApplyOne(old(doc.root), op), LeftBy(old(doc.root), op), error, doc.root)
  {
    hide ApplyNamed, ParsePointer;
    if !op.Obj? {
      return Some(InvalidPatchDocument);
    }
    var ms := op.members;
    var name, pathText := TextField(ms, K_OP), TextField(ms, K_PATH);
    if name.None? || pathText.None? {
      return Some(InvalidPatchDocument);
    }
    if !IsKnownOp(name.value) {
      return Some(UnknownOp);
    }
    var path := ParseJsonPointer(pathText.value);
    if path.None? {
      return Some(InvalidPointer);
    }
    if name.value == REMOVE {
      error := ApplyRemove(doc, ms, path.value);
    } else if NeedsValue(name.value) {
      error := ApplyWithValue(doc, ms, name.value, path.value);
    } else {
      error := ApplyWithFrom(doc, ms, name.value, path.value);
    }
  }

  method ApplyRemove(doc: Document, ghost ms: seq<Member>, path: Path) returns (error: Option<Kind>)
    modifies doc
    ensures Applied(ApplyNamed(old(doc.root), ms, REMOVE, path), old(doc.root), error, doc.root)
  {
    if |path| == 0 {
      return Some(RootOperation);
    }
    error := EditThrough(doc, path, RemoveEdit);
  }

  /** validate_patch_shape. */
  method ValidateShape(ops: seq<Json>) returns (error: Option<(Kind, nat)>)
    ensures error == ScanFrom(ops, 0)
  {
    hide ShapeError;
    var i := 0;
    while i < |ops|
      invariant i <= |ops| && ScanFrom(ops, 0) == ScanFrom(ops, i)
    {
      var bad := ShapeError(ops[i]);
      if bad.Some? {
        return Some((bad.value, i));
      }
      i := i + 1;
    }
    return None;
  }

  /** patch_result: the target takes the patched value, or keeps its own on any error. */
  method PatchTarget(target: Document, patch: Json) returns (r: Option<(Kind, nat)>)
    modifies target
    ensures match PatchSpec.Patch(old(target.root), patch)
      case Patched(v) => r.None? && target.root == v
      case Rejected(k, n) => r == Some((k, n)) && target.root == old(target.root)
  {
    hide ApplyOne, ScanFrom;
    if !patch.Arr? {
      return Some((InvalidPatchDocument, 0));
    }
    var ops := patch.items;
    var bad := ValidateShape(ops);
    if bad.Some? {
      return bad;
    }
    var shadow := new Document(target.root);
    var i := 0;
    while i < |ops|
      invariant i <= |ops| && fresh(shadow) && target.root == old(target.root)
      invariant ApplyFrom(old(target.root), ops, 0) == ApplyFrom(shadow.root, ops, i)
    {
      var error := ApplyOneTo(shadow, ops[i]);
      if error.Some? {
        return Some((error.value, i));
      }
      i := i + 1;
    }
    target.root := shadow.root;
    return None;
  }
}
