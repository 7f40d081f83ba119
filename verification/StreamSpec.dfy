/**
 The incremental reader as a state machine over the whole stream: string tokens found by their closing quote and
 then decoded, an explicit stack of container phases, one event per pull. Nothing here knows about chunks.
 */
module StreamSpec {
  import opened Core
  import opened Grammar
  import opened Utf8
  import opened Strings
  import opened Json5Lexer
  import opened ParserSpec

  // ---- string tokens ----

  /** Position of the closing quote of a string whose content starts at p, or |s| when the stream ends first. */
  function RawEnd(s: bytes, p: nat): (q: nat)
    requires p <= |s|
    ensures p <= q <= |s| && (q < |s| ==> s[q] == QUOTE)
    decreases |s| - p
  {
    if p == |s| then p
    else if s[p] == QUOTE then p
    else if s[p] != BACKSLASH then RawEnd(s, p + 1)
    else if p + 1 == |s| then |s|
    else RawEnd(s, p + 2)
  }

  /** Index of the first raw control byte at or after i, or |t|. */
  function FirstControl(t: bytes, i: nat): (k: nat)
    requires i <= |t|
    ensures i <= k <= |t| && (k < |t| ==> t[k] < 0x20) && forall j :: i <= j < k ==> t[j] >= 0x20
    decreases |t| - i
  {
    if i == |t| || t[i] < 0x20 then i else FirstControl(t, i + 1)
  }

  /** The decode loop over a buffered token t followed by NULs. */
  function DecodeToken(strict: bool, t: bytes, i: nat, ck: Checker, acc: bytes): (r: Parsed<bytes>)
    requires i <= |t|
    ensures r.Ok? ==> r.next == |t|
    decreases |t| - i
  {
    if i == |t| then
      var ck1 := EndIf(strict, ck);
      if ck1.code.Some? then CkFail(ck1) else Ok(acc, |t|)
    else
      var ck1 := FeedIf(strict, ck, t[i], i);
      if ck1.code.Some? then CkFail(ck1)
      else
        match Unit(t, i)
        case Fail(e) => Fail(e)
        case Ok(u, n) => DecodeToken(strict, t, n, ck1, acc + u)
  }

  predicate HasEscape(t: bytes) { BACKSLASH in t }

  /** The value of a buffered token, offsets relative to it. */
  function TokenValue(strict: bool, t: bytes): (r: Parsed<bytes>)
    ensures r.Ok? ==> r.next == |t|
  {
    if HasEscape(t) then DecodeToken(strict, t, 0, Fresh, [])
    else
      var k := FirstControl(t, 0);
      if k < |t| then Fail(Positioned(UnescapedControl, k))
      else
        var bad := if strict then CheckStrict(t, 0, |t|) else None;
        if bad.Some? then Fail(bad.value) else Ok(t, |t|)
  }

  function Shifted(e: Error, d: nat): Error {
    match e
    case Positioned(c, o) => Positioned(c, o + d)
    case ContextFree(_) => e
  }

  /** parse_string_token with the opening quote at p. */
  function StringAt(strict: bool, s: bytes, p: nat): (r: Parsed<bytes>)
    requires p < |s|
    ensures r.Ok? ==> p + 1 < r.next <= |s|
  {
    var q := RawEnd(s, p + 1);
    if q == |s| then Fail(Positioned(UnterminatedString, |s|))
    else
      match TokenValue(strict, s[p + 1..q])
      case Fail(e) => Fail(Shifted(e, p + 1))
      case Ok(v, _) => Ok(v, q + 1)
  }

  // ---- the machine ----

  datatype Event = BeginObject | MapKey(text: bytes) | EndObject | BeginArray | EndArray | Scalar(value: Json)

  datatype Kind = ObjectFrame | ArrayFrame
  datatype Phase =
    | ObjectKeyOrEnd | ObjectKey | ObjectColon | ObjectValue | ObjectCommaOrEnd
    | ArrayValueOrEnd | ArrayValue | ArrayCommaOrEnd
  datatype Frame = Frame(kind: Kind, phase: Phase)

  datatype StreamMode = SingleRoot | MultiValue

  datatype State = State(pos: nat, stack: seq<Frame>, rootDone: bool, finished: bool, error: Option<Error>)

  /** One turn of the loop in next(): an event, a stop, or another turn. */
  datatype Turn = Emit(event: Event, state: State) | Halt(state: State) | Go(state: State)

  function FailAt(r: State, c: Code, p: nat): Turn { Halt(r.(error := Some(Positioned(c, p)))) }
  function FailWith(r: State, e: Error): Turn { Halt(r.(error := Some(e))) }

  function SetTop(stack: seq<Frame>, phase: Phase): (r: seq<Frame>)
    requires |stack| > 0
    ensures |r| == |stack|
  {
    stack[|stack| - 1 := stack[|stack| - 1].(phase := phase)]
  }

  function Top(r: State): Frame
    requires |r.stack| > 0
  {
    r.stack[|r.stack| - 1]
  }

  function Pop(r: State): State
    requires |r.stack| > 0
  {
    r.(stack := r.stack[..|r.stack| - 1])
  }

  /** complete_value: the value slot of the parent is filled, or the root is done. */
  function Complete(r: State): State {
    if |r.stack| == 0 then r.(rootDone := true)
    else r.(stack := SetTop(r.stack, if Top(r).kind.ObjectFrame? then ObjectCommaOrEnd else ArrayCommaOrEnd))
  }

  /** enter_container at q, then consume the bracket. */
  function Enter(cfg: Config, r: State, q: nat, kind: Kind): Turn {
    if TooDeep(cfg, |r.stack|) then FailAt(r, MaxDepthExceeded, q)
    else
      var f := Frame(kind, if kind.ObjectFrame? then ObjectKeyOrEnd else ArrayValueOrEnd);
      Emit(if kind.ObjectFrame? then BeginObject else BeginArray, r.(pos := q + 1, stack := r.stack + [f]))
  }

  /** A scalar token's outcome as a turn. */
  function ScalarTurn(r: State, v: Parsed<Json>): Turn {
    match v
    case Fail(e) => FailWith(r, e)
    case Ok(j, n) => Emit(Scalar(j), Complete(r.(pos := n)))
  }

  /** The reader never consults the JSON5 setting. */
  function RfcOf(cfg: Config): Config { cfg.(json5 := false) }

  function ExpectValue(cfg: Config, s: bytes, r: State, atRoot: bool): (t: Turn)
    requires r.pos <= |s|
    ensures t.Emit? ==> r.pos < t.state.pos <= |s|
    ensures !t.Go?
  {
    var q := SkipWs(s, r.pos);
    if q == |s| then FailAt(r, if atRoot then UnexpectedEndOfInput else UnexpectedCharacter, q)
    else
      var c := s[q];
      if c == LBRACE then Enter(cfg, r, q, ObjectFrame)
      else if c == LBRACKET then Enter(cfg, r, q, ArrayFrame)
      else if c == QUOTE then ScalarTurn(r, AsString(StringAt(cfg.strictUtf8, s, q)))
      else if StartsLiteral(c) then ScalarTurn(r, ParseLiteral(RfcOf(cfg), Whole(s), q))
      else if StartsNumber(c) then ScalarTurn(r, ParseNumber(cfg.lib, s, q, |s|))
      else FailAt(r, if atRoot then UnexpectedValueCharacter else UnexpectedCharacter, q)
  }

  function CloseTurn(r: State, q: nat, e: Event): Turn
    requires |r.stack| > 0
  {
    Emit(e, Complete(Pop(r.(pos := q + 1))))
  }

  function KeyTurn(cfg: Config, s: bytes, r: State): (t: Turn)
    requires r.pos <= |s| && |r.stack| > 0
    ensures t.Emit? ==> r.pos < t.state.pos <= |s|
    ensures !t.Go?
  {
    var q := SkipWs(s, r.pos);
    if q == |s| then FailAt(r, ExpectedStringKey, q)
    else if s[q] == RBRACE && Top(r).phase.ObjectKeyOrEnd? then CloseTurn(r, q, EndObject)
    else if s[q] != QUOTE then FailAt(r, ExpectedStringKey, q)
    else
      match StringAt(cfg.strictUtf8, s, q)
      case Fail(e) => FailWith(r, e)
      case Ok(k, n) => Emit(MapKey(k), r.(pos := n, stack := SetTop(r.stack, ObjectColon)))
  }

  /** After a value of a container: close, or a comma. */
  function CommaTurn(s: bytes, r: State, close: byte, e: Event, next: Phase, atEnd: Code, other: Code): (t: Turn)
    requires r.pos <= |s| && |r.stack| > 0
    ensures t.Emit? || t.Go? ==> r.pos < t.state.pos <= |s|
  {
    var q := SkipWs(s, r.pos);
    if q == |s| then FailAt(r, atEnd, q)
    else if s[q] == close then CloseTurn(r, q, e)
    else if s[q] == COMMA then Go(r.(pos := q + 1, stack := SetTop(r.stack, next)))
    else FailAt(r, other, q)
  }

  /** The turn taken inside an open container. */
  function FrameTurn(cfg: Config, s: bytes, r: State): (t: Turn)
    requires r.pos <= |s| && |r.stack| > 0
    ensures t.Emit? || t.Go? ==> r.pos < t.state.pos <= |s|
  {
    match Top(r).phase
    case ObjectKeyOrEnd => KeyTurn(cfg, s, r)
    case ObjectKey => KeyTurn(cfg, s, r)
    case ObjectColon =>
      var q := SkipWs(s, r.pos);
      if q == |s| || s[q] != COLON then FailAt(r, ExpectedColon, q)
      else Go(r.(pos := q + 1, stack := SetTop(r.stack, ObjectValue)))
    case ObjectValue => ExpectValue(cfg, s, r, false)
    case ObjectCommaOrEnd => CommaTurn(s, r, RBRACE, EndObject, ObjectKey, UnexpectedEndOfObject, ExpectedCommaOrBrace)
    case ArrayValueOrEnd =>
      var q := SkipWs(s, r.pos);
      if q == |s| then FailAt(r, UnexpectedCharacter, q)
      else if s[q] == RBRACKET then CloseTurn(r, q, EndArray)
      else ExpectValue(cfg, s, r.(pos := q), false)
    case ArrayValue => ExpectValue(cfg, s, r, false)
    case ArrayCommaOrEnd => CommaTurn(s, r, RBRACKET, EndArray, ArrayValue, ExpectedCommaOrBracket,
      ExpectedCommaOrBracket)
  }

  /** The turn taken between top-level values. */
  function RootDoneTurn(mode: StreamMode, s: bytes, r: State): (t: Turn)
    requires r.pos <= |s|
    ensures t.Go? ==> r.pos < t.state.pos <= |s|
    ensures !t.Emit?
  {
    var q := SkipWs(s, r.pos);
    if mode.SingleRoot? then
      if q < |s| then FailAt(r, ExtraCharactersAfterValue, q) else Halt(r.(pos := q, finished := true))
    else if r.pos == |s| then Halt(r.(finished := true))
    else if !IsWs(s[r.pos]) then FailAt(r, ExtraCharactersAfterValue, r.pos)
    else if q == |s| then Halt(r.(pos := q, finished := true))
    else Go(r.(pos := q, rootDone := false))
  }

  function OneTurn(cfg: Config, mode: StreamMode, s: bytes, r: State): (t: Turn)
    requires r.pos <= |s|
    ensures t.Emit? || t.Go? ==> r.pos < t.state.pos <= |s|
  {
    if r.error.Some? || r.finished then Halt(r)
    else if r.rootDone then RootDoneTurn(mode, s, r)
    else if |r.stack| == 0 then
      var q := SkipWs(s, r.pos);
      if mode.SingleRoot? then ExpectValue(cfg, s, r, true)
      else if q == |s| then Halt(r.(pos := q, finished := true))
      else ExpectValue(cfg, s, r.(pos := q), true)
    else FrameTurn(cfg, s, r)
  }

  datatype Pulled = Pulled(event: Option<Event>, state: State)

  /** next(): turns until one emits or stops. */
  function Next(cfg: Config, mode: StreamMode, s: bytes, r: State): (n: Pulled)
    requires r.pos <= |s|
    ensures n.event.Some? ==> r.pos < n.state.pos <= |s|
    decreases |s| - r.pos
  {
    match OneTurn(cfg, mode, s, r)
    case Emit(e, x) => Pulled(Some(e), x)
    case Halt(x) => Pulled(None, x)
    case Go(x) => Next(cfg, mode, s, x)
  }

  datatype Ran = Ran(events: seq<Event>, state: State)

  /** Every event of the stream from state r on, and the state in which the reader stops. */
  function Run(cfg: Config, mode: StreamMode, s: bytes, r: State): Ran
    requires r.pos <= |s|
    decreases |s| - r.pos
  {
    var n := Next(cfg, mode, s, r);
    if n.event.None? then Ran([], n.state)
    else
      var rest := Run(cfg, mode, s, n.state);
      Ran([n.event.value] + rest.events, rest.state)
  }

  lemma RunStep(cfg: Config, mode: StreamMode, s: bytes, r: State)
    requires r.pos <= |s|
    ensures var n := Next(cfg, mode, s, r); var x := Run(cfg, mode, s, r);
      if n.event.None? then x == Ran([], n.state)
      else x == Ran([n.event.value] + Run(cfg, mode, s, n.state).events, Run(cfg, mode, s, n.state).state)
  {
    hide Next;
  }

  function Start(cfg: Config, s: bytes): (r: State)
    ensures r.pos <= |s|
  {
    State(SkipBom(cfg, Whole(s)), [], false, false, None)
  }

  /** The reader's whole observable behaviour on a stream. */
  function Events(cfg: Config, mode: StreamMode, s: bytes): Ran { Run(cfg, mode, s, Start(cfg, s)) }

  predicate EndsCleanly(x: Ran) { x.state.error.None? }

  // ---- folding events into trees ----

  datatype Partial = PartialArray(items: seq<Json>) | PartialObject(members: seq<Member>, key: bytes)

  /** Open containers, outermost first, and the finished top-level values. */
  datatype Builder = Builder(open: seq<Partial>, roots: seq<Json>)

  const NoValue: Builder := Builder([], [])

  /** A finished value goes into the innermost open container (members last-wins), or becomes a root. */
  function Put(b: Builder, v: Json): Builder {
    if |b.open| == 0 then b.(roots := b.roots + [v])
    else
      var i := |b.open| - 1;
      var top := match b.open[i]
        case PartialArray(items) => PartialArray(items + [v])
        case PartialObject(ms, k) => PartialObject(Upsert(ms, k, v), k);
      b.(open := b.open[i := top])
  }

  function Close(b: Builder): Builder {
    if |b.open| == 0 then b
    else
      var i := |b.open| - 1;
      var v := match b.open[i]
        case PartialArray(items) => Arr(items)
        case PartialObject(ms, _) => Obj(ms);
      Put(b.(open := b.open[..i]), v)
  }

  function Consume(b: Builder, e: Event): Builder {
    match e
    case BeginObject => b.(open := b.open + [PartialObject([], [])])
    case BeginArray => b.(open := b.open + [PartialArray([])])
    case MapKey(k) =>
      var i := |b.open| - 1;
      if i >= 0 && b.open[i].PartialObject? then b.(open := b.open[i := b.open[i].(key := k)]) else b
    case EndObject => Close(b)
    case EndArray => Close(b)
    case Scalar(v) => Put(b, v)
  }

  function Fold(b: Builder, es: seq<Event>): Builder
    decreases |es|
  {
    if |es| == 0 then b else Fold(Consume(b, es[0]), es[1..])
  }
}
