/**
 JSON Patch (RFC 6902 section 4) over trees, as the library has it: what a pointer denotes, what each edit makes of a
 tree, one operation, the shape scan, and a whole patch. The test operation compares by the library's equality, which
 tells an integer from a double; PatchMeaning and PatchTests relate all of it to the standard's.
 */
module PatchSpec {
  import opened Core
  import opened Pointers
  import opened JsonOrder
  import opened ObjectIndex

  type Path = seq<bytes>

  datatype Kind =
    | InvalidPatchDocument | UnknownOp | InvalidPointer | PathNotFound | InvalidArrayIndex | IndexOutOfRange
    | TypeMismatch | RootOperation | TestFailed | MoveIntoDescendant

  datatype Outcome<+T> = Done(value: T) | Refused(kind: Kind)

  const DASH: bytes := [MINUS]

  // ---- hops ----

  /** One hop into an existing node; the parent's type decides how the token is read. */
  function Child(v: Json, t: bytes): Outcome<Json> {
    match v
    case Obj(ms) =>
      var p := FirstMatch(ms, t);
      if p < |ms| then Done(ms[p].value) else Refused(PathNotFound)
    case Arr(items) =>
      (match StrictIndex(t)
       case None => Refused(InvalidArrayIndex)
       case Some(i) => if i < |items| then Done(items[i]) else Refused(IndexOutOfRange))
    case _ => Refused(TypeMismatch)
  }

  /** Store through the reference a successful hop returned. */
  function SetChild(v: Json, t: bytes, x: Json): Json
    requires Child(v, t).Done?
  {
    match v
    case Obj(ms) =>
      var p := FirstMatch(ms, t);
      Obj(ms[p := Member(ms[p].key, x)])
    case Arr(items) => Arr(items[StrictIndex(t).value := x])
  }

  /** resolve_node. */
  function Lookup(v: Json, path: Path): Outcome<Json>
    decreases |path|
  {
    if |path| == 0 then Done(v)
    else
      match Child(v, path[0])
      case Refused(k) => Refused(k)
      case Done(c) => Lookup(c, path[1..])
  }

  /** Store through the reference a successful walk returned. */
  function PutAt(v: Json, path: Path, x: Json): Json
    requires Lookup(v, path).Done?
    decreases |path|
  {
    if |path| == 0 then x else SetChild(v, path[0], PutAt(Child(v, path[0]).value, path[1..], x))
  }

  // ---- edits at the parent ----

  function AddHere(v: Json, t: bytes, x: Json): Outcome<Json> {
    match v
    case Obj(ms) => Done(Obj(Upsert(ms, t, x)))
    case Arr(items) =>
      if t == DASH then Done(Arr(items + [x]))
      else
        (match StrictIndex(t)
         case None => Refused(InvalidArrayIndex)
         case Some(i) => if i > |items| then Refused(IndexOutOfRange) else Done(Arr(items[..i] + [x] + items[i..])))
    case _ => Refused(TypeMismatch)
  }

  /** Existing mode: the slot must be there; '-' never is. */
  function Existing(v: Json, t: bytes): Outcome<Json> {
    if v.Arr? && t == DASH then Refused(InvalidArrayIndex) else Child(v, t)
  }

  function RemoveHere(v: Json, t: bytes): Outcome<Json> {
    match Existing(v, t)
    case Refused(k) => Refused(k)
    case Done(_) =>
      match v
      case Obj(ms) => Done(Obj(RemoveKey(ms, t)))
      case Arr(items) =>
        var i := StrictIndex(t).value;
        Done(Arr(items[..i] + items[i + 1..]))
  }

  function ReplaceHere(v: Json, t: bytes, x: Json): Outcome<Json> {
    match Existing(v, t)
    case Refused(k) => Refused(k)
    case Done(_) => Done(SetChild(v, t, x))
  }

  datatype Edit = AddEdit(x: Json) | RemoveEdit | ReplaceEdit(x: Json)

  function EditHere(e: Edit, v: Json, t: bytes): Outcome<Json> {
    match e
    case AddEdit(x) => AddHere(v, t, x)
    case RemoveEdit => RemoveHere(v, t)
    case ReplaceEdit(x) => ReplaceHere(v, t, x)
  }

  /** Go down the path, edit the last parent, put every node back on the way up. */
  function EditAt(v: Json, path: Path, e: Edit): Outcome<Json>
    requires |path| > 0
    decreases |path|
  {
    if |path| == 1 then EditHere(e, v, path[0])
    else
      match Child(v, path[0])
      case Refused(k) => Refused(k)
      case Done(c) =>
        match EditAt(c, path[1..], e)
        case Refused(k) => Refused(k)
        case Done(c') => Done(SetChild(v, path[0], c'))
  }

  /** RFC 6902 4.1: the empty pointer replaces the document. */
  function AddAt(v: Json, path: Path, x: Json): Outcome<Json> {
    if |path| == 0 then Done(x) else EditAt(v, path, AddEdit(x))
  }

  function RemoveAt(v: Json, path: Path): Outcome<Json> {
    if |path| == 0 then Refused(RootOperation) else EditAt(v, path, RemoveEdit)
  }

  function ReplaceAt(v: Json, path: Path, x: Json): Outcome<Json> {
    if |path| == 0 then Done(x) else EditAt(v, path, ReplaceEdit(x))
  }

  predicate ProperPrefix(a: Path, b: Path) { |a| < |b| && b[..|a|] == a }

  /** RFC 6902 4.4, with the source slot resolved first. */
  function MoveTo(v: Json, from: Path, path: Path): Outcome<Json> {
    if |from| == 0 then Refused(RootOperation)
    else
      match ResolveSource(v, from)
      case Refused(k) => Refused(k)
      case Done(x) =>
        if from == path then Done(v)
        else if ProperPrefix(from, path) then Refused(MoveIntoDescendant)
        else
          match RemoveAt(v, from)
          case Refused(k) => Refused(k)
          case Done(w) => AddAt(w, path, x)
  }

  /** The value in an existing slot. */
  function ResolveSource(v: Json, path: Path): Outcome<Json>
    requires |path| > 0
    decreases |path|
  {
    if |path| == 1 then Existing(v, path[0])
    else
      match Child(v, path[0])
      case Refused(k) => Refused(k)
      case Done(c) => ResolveSource(c, path[1..])
  }

  function CopyTo(v: Json, from: Path, path: Path): Outcome<Json> {
    match Lookup(v, from)
    case Refused(k) => Refused(k)
    case Done(x) => AddAt(v, path, x)
  }

  function TestAt(v: Json, path: Path, x: Json): Outcome<Json> {
    match Lookup(v, path)
    case Refused(k) => Refused(k)
    case Done(y) => if Eq(y, x) then Done(v) else Refused(TestFailed)
  }

  // ---- operation objects ----

  const K_OP: bytes := [0x6F, 0x70]
  const K_PATH: bytes := [0x70, 0x61, 0x74, 0x68]
  const K_VALUE: bytes := [0x76, 0x61, 0x6C, 0x75, 0x65]
  const K_FROM: bytes := [0x66, 0x72, 0x6F, 0x6D]
  const ADD: bytes := [0x61, 0x64, 0x64]
  const REMOVE: bytes := [0x72, 0x65, 0x6D, 0x6F, 0x76, 0x65]
  const REPLACE: bytes := [0x72, 0x65, 0x70, 0x6C, 0x61, 0x63, 0x65]
  const MOVE: bytes := [0x6D, 0x6F, 0x76, 0x65]
  const COPY: bytes := [0x63, 0x6F, 0x70, 0x79]
  const TEST: bytes := [0x74, 0x65, 0x73, 0x74]

  function Field(ms: seq<Member>, name: bytes): Option<Json> {
    var p := FirstMatch(ms, name);
    if p < |ms| then Some(ms[p].value) else None
  }

  function TextField(ms: seq<Member>, name: bytes): Option<bytes> {
    match Field(ms, name)
    case Some(Str(s)) => Some(s)
    case _ => None
  }

  predicate IsKnownOp(name: bytes) {
    name == ADD || name == REMOVE || name == REPLACE || name == MOVE || name == COPY || name == TEST
  }

  predicate NeedsValue(name: bytes) { name == ADD || name == REPLACE || name == TEST }

  /**
   apply_one with its defensive checks, in the library's order. A pointer that does not parse escapes as an exception.
   */
  function ApplyOne(v: Json, op: Json): Outcome<Json> {
    if !op.Obj? then Refused(InvalidPatchDocument)
    else
      var ms := op.members;
      var name, pathText := TextField(ms, K_OP), TextField(ms, K_PATH);
      if name.None? || pathText.None? then Refused(InvalidPatchDocument)
      else if !IsKnownOp(name.value) then Refused(UnknownOp)
      else
        var path := ParsePointer(pathText.value);
        if path.None? then Refused(InvalidPointer)
        else ApplyNamed(v, ms, name.value, path.value)
  }

  function ApplyNamed(v: Json, ms: seq<Member>, name: bytes, path: Path): Outcome<Json> {
    var value := Field(ms, K_VALUE);
    if name == REMOVE then RemoveAt(v, path)
    else if NeedsValue(name) then
      if value.None? then Refused(InvalidPatchDocument)
      else if name == ADD then AddAt(v, path, value.value)
      else if name == REPLACE then ReplaceAt(v, path, value.value)
      else TestAt(v, path, value.value)
    else
      var fromText := TextField(ms, K_FROM);
      if fromText.None? then Refused(InvalidPatchDocument)
      else
        var from := ParsePointer(fromText.value);
        if from.None? then Refused(InvalidPointer)
        else if name == COPY then CopyTo(v, from.value, path)
        else MoveTo(v, from.value, path)
  }

  // ---- what a refused operation leaves behind in the document it edits ----

  /** A move that gets as far as taking its source away. */
  predicate Takes(v: Json, from: Path, path: Path) {
    |from| > 0 && Lookup(v, from).Done? && from != path && !ProperPrefix(from, path) && RemoveAt(v, from).Done?
  }

  function LeftByMove(v: Json, from: Path, path: Path): Json {
    if Takes(v, from, path) then RemoveAt(v, from).value else v
  }

  /** The source of an operation that is a move, if its pointer parses. */
  function MoveSource(ms: seq<Member>, name: bytes): Option<Path> {
    if name != MOVE || TextField(ms, K_FROM).None? then None else ParsePointer(TextField(ms, K_FROM).value)
  }

  function LeftByNamed(v: Json, ms: seq<Member>, name: bytes, path: Path): Json {
    match MoveSource(ms, name)
    case Some(from) => LeftByMove(v, from, path)
    case None => v
  }

  /** Where an operation points, once its defensive checks have passed. */
  function Target(op: Json): Option<Path> {
    if !op.Obj? then None
    else
      var name, pathText := TextField(op.members, K_OP), TextField(op.members, K_PATH);
      if name.None? || pathText.None? || !IsKnownOp(name.value) then None else ParsePointer(pathText.value)
  }

  function LeftBy(v: Json, op: Json): Json {
    match Target(op)
    case Some(path) => LeftByNamed(v, op.members, TextField(op.members, K_OP).value, path)
    case None => v
  }

  /** The operation is a move whose source is there and may leave. */
  predicate TakesAway(v: Json, op: Json) {
    var path := Target(op);
    path.Some? &&
    var from := MoveSource(op.members, TextField(op.members, K_OP).value);
    from.Some? && Takes(v, from.value, path.value)
  }

  /** What validate_patch_shape says about one operation. */
  function ShapeError(op: Json): Option<Kind> {
    if !op.Obj? then Some(InvalidPatchDocument)
    else
      var ms := op.members;
      var name, pathText := TextField(ms, K_OP), TextField(ms, K_PATH);
      if name.None? then Some(InvalidPatchDocument)
      else if !IsKnownOp(name.value) then Some(UnknownOp)
      else if pathText.None? then Some(InvalidPatchDocument)
      else if ParsePointer(pathText.value).None? then Some(InvalidPointer)
      else if NeedsValue(name.value) then (if Field(ms, K_VALUE).None? then Some(InvalidPatchDocument) else None)
      else if name.value == REMOVE then None
      else if TextField(ms, K_FROM).None? then Some(InvalidPatchDocument)
      else if ParsePointer(TextField(ms, K_FROM).value).None? then Some(InvalidPointer)
      else None
  }

  predicate ShapeKind(k: Kind) { k == InvalidPatchDocument || k == UnknownOp || k == InvalidPointer }

  datatype PatchResult = Patched(value: Json) | Rejected(kind: Kind, opIndex: nat)

  /** The first operation the shape scan rejects, from i on. */
  function ScanFrom(ops: seq<Json>, i: nat): Option<(Kind, nat)>
    requires i <= |ops|
    decreases |ops| - i
  {
    if i == |ops| then None
    else if ShapeError(ops[i]).Some? then Some((ShapeError(ops[i]).value, i))
    else ScanFrom(ops, i + 1)
  }

  function ApplyFrom(v: Json, ops: seq<Json>, i: nat): PatchResult
    requires i <= |ops|
    decreases |ops| - i
  {
    if i == |ops| then Patched(v)
    else
      match ApplyOne(v, ops[i])
      case Refused(k) => Rejected(k, i)
      case Done(w) => ApplyFrom(w, ops, i + 1)
  }

  /** patch_result: what becomes of the target, or why nothing does. */
  function Patch(target: Json, patch: Json): PatchResult {
    if !patch.Arr? then Rejected(InvalidPatchDocument, 0)
    else
      match ScanFrom(patch.items, 0)
      case Some(e) => Rejected(e.0, e.1)
      case None => ApplyFrom(target, patch.items, 0)
  }
}
