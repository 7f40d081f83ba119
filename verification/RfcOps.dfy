/**
 The operations of section 4 of RFC 6902 on trees, and the pointers of sections 3 and 4 of RFC 6901 they use, written
 from the standards alone. None is an error, of whatever kind. Nothing here calls the library's edits.
 */
module RfcOps {
  import opened Core
  import opened Lexis
  import opened NumericEquality

  /** A text of ASCII characters as bytes. */
  function Spell(t: string): (r: bytes)
    requires forall i :: 0 <= i < |t| ==> t[i] as int < 128
    ensures |r| == |t| && forall i :: 0 <= i < |t| ==> r[i] == t[i] as int
  {
    seq(|t|, i requires 0 <= i < |t| => t[i] as int)
  }

  // ---- pointers ----

  /** The text s[i..e] of a reference token stands for t: `~0` for a tilde, `~1` for a slash, the rest for itself. */
  predicate Unescapes(s: bytes, i: nat, e: nat, t: bytes)
    requires i <= e <= |s|
    decreases e - i
  {
    if i == e then |t| == 0
    else if s[i] == '~' as int then
      i + 1 < e && |t| > 0
      && ((s[i + 1] == '0' as int && t[0] == '~' as int) || (s[i + 1] == '1' as int && t[0] == '/' as int))
      && Unescapes(s, i + 2, e, t[1..])
    else |t| > 0 && t[0] == s[i] && Unescapes(s, i + 1, e, t[1..])
  }

  /** The token t stands at p behind a slash, and ends at e, where the pointer ends or the next slash stands. */
  predicate TokenAt(s: bytes, p: nat, e: nat, t: bytes) {
    && p < e <= |s| && s[p] == '/' as int && (e == |s| || s[e] == '/' as int)
    && (forall i :: p < i < e ==> s[i] != '/' as int)
    && Unescapes(s, p + 1, e, t)
  }

  /** A pointer is its tokens in order, each behind a slash, and the empty text for no token. */
  ghost predicate TokensAt(s: bytes, p: nat, ts: seq<bytes>)
    decreases |ts|
  {
    if |ts| == 0 then p == |s| else exists e: nat :: TokenAt(s, p, e, ts[0]) && TokensAt(s, e, ts[1..])
  }

  ghost predicate IsPointer(s: bytes, ts: seq<bytes>) { TokensAt(s, 0, ts) }

  /** The tokens of a pointer; None for a text that is none. */
  ghost function Tokens(s: bytes): Option<seq<bytes>> {
    if exists ts :: IsPointer(s, ts) then (var ts :| IsPointer(s, ts); Some(ts)) else None
  }

  // ---- what a token refers to ----

  /** No array holds so many elements. */
  const UNREACHABLE: nat := 18446744073709551610

  /** 0, or digits without a leading zero; an index no array reaches refers to nothing. */
  function ArrayIndex(t: bytes): Option<nat> {
    if |t| > 0 && IsDecimal(t) && (|t| == 1 || t[0] != '0' as int) && DecimalValue(t) < UNREACHABLE
    then Some(DecimalValue(t)) else None
  }

  /** Where the first member of that name stands, or |ms|. */
  function NameAt(ms: seq<Member>, name: bytes, i: nat): (r: nat)
    requires i <= |ms|
    ensures i <= r <= |ms|
    decreases |ms| - i
  {
    if i == |ms| || ms[i].key == name then i else NameAt(ms, name, i + 1)
  }

  function Step(v: Json, t: bytes): Option<Json> {
    match v
    case Obj(ms) => var i := NameAt(ms, t, 0); if i < |ms| then Some(ms[i].value) else None
    case Arr(items) =>
      (match ArrayIndex(t)
       case Some(i) => if i < |items| then Some(items[i]) else None
       case None => None)
    case _ => None
  }

  function Evaluate(v: Json, path: seq<bytes>): Option<Json>
    decreases |path|
  {
    if |path| == 0 then Some(v)
    else
      match Step(v, path[0])
      case Some(c) => Evaluate(c, path[1..])
      case None => None
  }

  /** The container with another value where t refers. */
  function WithChild(v: Json, t: bytes, c: Json): Json {
    match v
    case Obj(ms) =>
      var i := NameAt(ms, t, 0);
      if i < |ms| then Obj(ms[..i] + [Member(ms[i].key, c)] + ms[i + 1..]) else v
    case Arr(items) =>
      (match ArrayIndex(t)
       case Some(i) => if i < |items| then Arr(items[..i] + [c] + items[i + 1..]) else v
       case None => v)
    case _ => v
  }

  // ---- the six operations ----

  /** Section 4.1: a new member, a member replaced, an element inserted before an index, or appended at `-`. */
  function Add(v: Json, path: seq<bytes>, x: Json): Option<Json>
    decreases |path|
  {
    if |path| == 0 then Some(x)
    else if |path| == 1 then
      match v
      case Obj(ms) =>
        var i := NameAt(ms, path[0], 0);
        Some(Obj(if i < |ms| then ms[..i] + [Member(ms[i].key, x)] + ms[i + 1..] else ms + [Member(path[0], x)]))
      case Arr(items) =>
        if path[0] == ['-' as int] then Some(Arr(items + [x]))
        else
          (match ArrayIndex(path[0])
           case Some(i) => if i <= |items| then Some(Arr(items[..i] + [x] + items[i..])) else None
           case None => None)
      case _ => None
    else
      match Step(v, path[0])
      case None => None
      case Some(c) =>
        match Add(c, path[1..], x)
        case None => None
        case Some(d) => Some(WithChild(v, path[0], d))
  }

  /** Section 4.2. The standard says nothing of a document without a root, so removing the root is an error. */
  function Remove(v: Json, path: seq<bytes>): Option<Json>
    decreases |path|
  {
    if |path| == 0 || Evaluate(v, path).None? then None
    else if |path| == 1 then
      match v
      case Obj(ms) => var i := NameAt(ms, path[0], 0); Some(Obj(if i < |ms| then ms[..i] + ms[i + 1..] else ms))
      case Arr(items) =>
        var i := ArrayIndex(path[0]).value;
        Some(Arr(items[..i] + items[i + 1..]))
      case _ => None
    else
      match Remove(Step(v, path[0]).value, path[1..])
      case None => None
      case Some(d) => Some(WithChild(v, path[0], d))
  }

  /** Section 4.3: the target has to exist and takes the value. */
  function Replace(v: Json, path: seq<bytes>, x: Json): Option<Json>
    decreases |path|
  {
    if Evaluate(v, path).None? then None
    else if |path| == 0 then Some(x)
    else
      match Replace(Step(v, path[0]).value, path[1..], x)
      case None => None
      case Some(d) => Some(WithChild(v, path[0], d))
  }

  predicate Above(a: seq<bytes>, b: seq<bytes>) { |a| < |b| && b[..|a|] == a }

  /** Section 4.4: the source has to exist and must not lie above the target; removed there, added here. */
  function Move(v: Json, from: seq<bytes>, path: seq<bytes>): Option<Json> {
    if |from| == 0 || Evaluate(v, from).None? || Above(from, path) then None
    else if from == path then Some(v)
    else
      match Remove(v, from)
      case None => None
      case Some(w) => Add(w, path, Evaluate(v, from).value)
  }

  /** Section 4.5: what is at `from` is added at the target. */
  function Copy(v: Json, from: seq<bytes>, path: seq<bytes>): Option<Json> {
    if Evaluate(v, from).None? then None else Add(v, path, Evaluate(v, from).value)
  }

  /** Section 4.6. */
  function Test(v: Json, path: seq<bytes>, x: Json): Option<Json> {
    if Evaluate(v, path).Some? && RfcEq(Evaluate(v, path).value, x) then Some(v) else None
  }

  // ---- operation objects and patches ----

  function Named(ms: seq<Member>, name: bytes): Option<Json> {
    var i := NameAt(ms, name, 0);
    if i < |ms| then Some(ms[i].value) else None
  }

  function TextNamed(ms: seq<Member>, name: bytes): Option<bytes> {
    match Named(ms, name)
    case Some(Str(t)) => Some(t)
    case _ => None
  }

  ghost function PointerNamed(ms: seq<Member>, name: bytes): Option<seq<bytes>> {
    match TextNamed(ms, name)
    case Some(t) => Tokens(t)
    case None => None
  }

  predicate TakesValue(name: bytes) { name == Spell("add") || name == Spell("replace") || name == Spell("test") }

  predicate TakesFrom(name: bytes) { name == Spell("move") || name == Spell("copy") }

  predicate IsOperation(name: bytes) { TakesValue(name) || TakesFrom(name) || name == Spell("remove") }

  /** Section 4: an object with `op`, one of the six names, a pointer `path`, and the member its operation needs. */
  ghost predicate WellFormed(op: Json) {
    op.Obj? &&
    var name := TextNamed(op.members, Spell("op"));
    && name.Some? && IsOperation(name.value)
    && PointerNamed(op.members, Spell("path")).Some?
    && (TakesValue(name.value) ==> Named(op.members, Spell("value")).Some?)
    && (TakesFrom(name.value) ==> PointerNamed(op.members, Spell("from")).Some?)
  }

  ghost function Perform(v: Json, op: Json): Option<Json> {
    if !WellFormed(op) then None
    else
      var name, path := TextNamed(op.members, Spell("op")).value, PointerNamed(op.members, Spell("path")).value;
      if name == Spell("remove") then Remove(v, path)
      else if TakesValue(name) then
        var x := Named(op.members, Spell("value")).value;
        if name == Spell("add") then Add(v, path, x)
        else if name == Spell("replace") then Replace(v, path, x)
        else Test(v, path, x)
      else
        var from := PointerNamed(op.members, Spell("from")).value;
        if name == Spell("move") then Move(v, from, path) else Copy(v, from, path)
  }

  /** Section 5: the operations one after another, up to the first error. */
  datatype Ending = Reached(document: Json) | ErrorAt(index: nat)

  ghost function PerformFrom(v: Json, ops: seq<Json>, i: nat): Ending
    requires i <= |ops|
    decreases |ops| - i
  {
    if i == |ops| then Reached(v)
    else
      match Perform(v, ops[i])
      case None => ErrorAt(i)
      case Some(w) => PerformFrom(w, ops, i + 1)
  }

  /** Section 3: a patch is an array of operations. */
  ghost function PerformPatch(v: Json, patch: Json): Ending {
    if patch.Arr? then PerformFrom(v, patch.items, 0) else ErrorAt(0)
  }
}
