/**
 The pointer filter over the event stream: what it should yield, as a selection on trees, and the frame-tracking
 machine that yields it, as a function of the events. Selection says what is selected from the text of a pointer.
 */
module ItemsSpec {
  import opened Core
  import opened StreamSpec

  // ---- event trees ----

  /** The events of one value. */
  function Flatten(v: Json): (es: seq<Event>)
    ensures |es| > 0
    decreases v, 1, 0
  {
    match v
    case Arr(items) => [BeginArray] + FlattenItems(v, 0) + [EndArray]
    case Obj(ms) => [BeginObject] + FlattenMembers(v, 0) + [EndObject]
    case _ => [Scalar(v)]
  }

  function FlattenItems(v: Json, k: nat): seq<Event>
    requires v.Arr? && k <= |v.items|
    decreases v, 0, |v.items| - k
  {
    if k == |v.items| then [] else Flatten(v.items[k]) + FlattenItems(v, k + 1)
  }

  function FlattenMembers(v: Json, k: nat): seq<Event>
    requires v.Obj? && k <= |v.members|
    decreases v, 0, |v.members| - k
  {
    if k == |v.members| then []
    else [MapKey(v.members[k].key)] + Flatten(v.members[k].value) + FlattenMembers(v, k + 1)
  }

  /** The events of a sequence of top-level values. */
  function FlattenAll(vs: seq<Json>): seq<Event> {
    if |vs| == 0 then [] else Flatten(vs[0]) + FlattenAll(vs[1..])
  }

  // ---- selection ----

  datatype Token = KeyToken(key: bytes) | IndexToken(index: nat) | AnyToken

  /** `*` and a number match array elements only; a name matches object members only. */
  predicate MatchesIndex(t: Token, k: nat) { t.AnyToken? || (t.IndexToken? && t.index == k) }
  predicate MatchesKey(t: Token, key: bytes) { t.KeyToken? && t.key == key }

  /** The events of every value below v whose path matches the tokens, in document order. */
  function Select(ts: seq<Token>, v: Json): seq<Event>
    decreases v, 1, 0
  {
    if |ts| == 0 then Flatten(v)
    else
      match v
      case Arr(items) => SelectItems(ts, v, 0)
      case Obj(ms) => SelectMembers(ts, v, 0)
      case _ => []
  }

  function SelectItems(ts: seq<Token>, v: Json, k: nat): seq<Event>
    requires |ts| > 0 && v.Arr? && k <= |v.items|
    decreases v, 0, |v.items| - k
  {
    if k == |v.items| then []
    else (if MatchesIndex(ts[0], k) then Select(ts[1..], v.items[k]) else []) + SelectItems(ts, v, k + 1)
  }

  function SelectMembers(ts: seq<Token>, v: Json, k: nat): seq<Event>
    requires |ts| > 0 && v.Obj? && k <= |v.members|
    decreases v, 0, |v.members| - k
  {
    if k == |v.members| then []
    else
      (if MatchesKey(ts[0], v.members[k].key) then Select(ts[1..], v.members[k].value) else []) +
        SelectMembers(ts, v, k + 1)
  }

  function SelectAll(ts: seq<Token>, vs: seq<Json>): seq<Event> {
    if |vs| == 0 then [] else Select(ts, vs[0]) + SelectAll(ts, vs[1..])
  }

  // ---- the machine ----

  /** An open container: how many tokens its path has consumed (-1 once it diverged), and the next element's index. */
  datatype PathFrame = PathFrame(isObject: bool, matchLen: int, nextIndex: nat)

  datatype ItemState = ItemState(frames: seq<PathFrame>, pending: int, emitting: bool, emitDepth: nat)

  const NoItems: ItemState := ItemState([], -1, false, 0)

  /** child_match_len. */
  function ChildMatch(ts: seq<Token>, st: ItemState): int {
    if |st.frames| == 0 then 0
    else
      var parent := st.frames[|st.frames| - 1];
      var base := parent.matchLen;
      if base < 0 || base >= |ts| then -1
      else if parent.isObject then st.pending
      else if MatchesIndex(ts[base], parent.nextIndex) then base + 1
      else -1
  }

  /** on_map_key. */
  function KeyMatch(ts: seq<Token>, st: ItemState, key: bytes): int {
    if |st.frames| == 0 || !st.frames[|st.frames| - 1].isObject then -1
    else
      var base := st.frames[|st.frames| - 1].matchLen;
      if base < 0 || base >= |ts| then -1
      else if MatchesKey(ts[base], key) then base + 1
      else -1
  }

  /** The innermost open array moves on to its next element. */
  function Bump(frames: seq<PathFrame>): (r: seq<PathFrame>)
    ensures |r| == |frames|
  {
    if |frames| == 0 || frames[|frames| - 1].isObject then frames
    else
      var i := |frames| - 1;
      frames[i := frames[i].(nextIndex := frames[i].nextIndex + 1)]
  }

  function DropTop(frames: seq<PathFrame>): seq<PathFrame> {
    if |frames| == 0 then frames else frames[..|frames| - 1]
  }

  datatype Fed = Fed(emit: bool, state: ItemState)

  function Begin(ts: seq<Token>, st: ItemState, isObject: bool): Fed {
    if st.emitting then
      Fed(true, st.(frames := st.frames + [PathFrame(isObject, -1, 0)], emitDepth := st.emitDepth + 1))
    else
      var m := ChildMatch(ts, st);
      var pushed := st.(frames := st.frames + [PathFrame(isObject, m, 0)]);
      if m == |ts| then Fed(true, pushed.(emitting := true, emitDepth := 1)) else Fed(false, pushed)
  }

  function Finish(st: ItemState): Fed {
    var popped := st.(frames := Bump(DropTop(st.frames)));
    if !st.emitting then Fed(false, popped)
    else
      var d: nat := if st.emitDepth == 0 then 0 else st.emitDepth - 1;
      Fed(true, popped.(emitDepth := d, emitting := d != 0))
  }

  /** What one reader event does: whether it is yielded, and the state after it. */
  function Feed(ts: seq<Token>, st: ItemState, e: Event): Fed {
    match e
    case BeginObject => Begin(ts, st, true)
    case BeginArray => Begin(ts, st, false)
    case EndObject => Finish(st)
    case EndArray => Finish(st)
    case MapKey(k) => if st.emitting then Fed(true, st) else Fed(false, st.(pending := KeyMatch(ts, st, k)))
    case Scalar(_) =>
      if st.emitting then Fed(true, st)
      else Fed(ChildMatch(ts, st) == |ts|, st.(frames := Bump(st.frames), pending := -1))
  }

  /** The events the filter yields. */
  function Filter(ts: seq<Token>, st: ItemState, es: seq<Event>): seq<Event>
    decreases |es|
  {
    if |es| == 0 then []
    else
      var f := Feed(ts, st, es[0]);
      (if f.emit then [es[0]] else []) + Filter(ts, f.state, es[1..])
  }
}
