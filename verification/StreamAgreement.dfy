/**
 The incremental reader against the recursive-descent parser: the same documents are accepted, and folding the
 events last-wins rebuilds the tree the parser builds.
 */
module StreamAgreement {
  import opened Core
  import opened Grammar
  import opened Strings
  import opened Json5Lexer
  import opened ParserSpec
  import opened StreamSpec
  import opened StreamStrings
  import opened StringErrors

  /** A run that feeds a builder: every event from state r on, and where the reader stops. */
  function Trace(cfg: Config, mode: StreamMode, s: bytes, r: State, b: Builder): (Builder, State)
    requires r.pos <= |s|
    decreases |s| - r.pos
  {
    match OneTurn(cfg, mode, s, r)
    case Emit(e, x) => Trace(cfg, mode, s, x, Consume(b, e))
    case Halt(x) => (b, x)
    case Go(x) => Trace(cfg, mode, s, x, b)
  }

  /** The rest of the run once a turn has been taken. */
  function After(cfg: Config, mode: StreamMode, s: bytes, t: Turn, b: Builder): (Builder, State)
    requires t.Halt? || t.state.pos <= |s|
  {
    match t
    case Emit(e, x) => Trace(cfg, mode, s, x, Consume(b, e))
    case Halt(x) => (b, x)
    case Go(x) => Trace(cfg, mode, s, x, b)
  }

  lemma TraceTurn(cfg: Config, mode: StreamMode, s: bytes, r: State, b: Builder)
    requires r.pos <= |s|
    ensures Trace(cfg, mode, s, r, b) == After(cfg, mode, s, OneTurn(cfg, mode, s, r), b)
  {
    hide OneTurn;
  }

  /** A builder run is the fold of the event run. */
  lemma {:induction false} TraceFolds(cfg: Config, mode: StreamMode, s: bytes, r: State, b: Builder)
    requires r.pos <= |s|
    ensures var x := Run(cfg, mode, s, r); Trace(cfg, mode, s, r, b) == (Fold(b, x.events), x.state)
    decreases |s| - r.pos
  {
    hide OneTurn;
    var t := OneTurn(cfg, mode, s, r);
    match t
    case Emit(e, x) =>
      TraceFolds(cfg, mode, s, x, Consume(b, e));
      var rest := Run(cfg, mode, s, x).events;
      assert ([e] + rest)[0] == e && ([e] + rest)[1..] == rest;
    case Halt(x) =>
    case Go(x) =>
      TraceFolds(cfg, mode, s, x, b);
  }

  predicate Live(r: State) { r.error.None? && !r.finished && !r.rootDone }

  predicate Rfc(cfg: Config) { !cfg.json5 && !cfg.strictKeys }

  /** Inside one more container than r, at p. */
  function Inside(r: State, p: nat, f: Frame): (x: State)
    ensures |x.stack| == |r.stack| + 1 && Top(x) == f && x.pos == p && (Live(r) ==> Live(x))
  {
    r.(pos := p, stack := r.stack + [f])
  }

  /** The builder with one more open container. */
  function Opened(b: Builder, part: Partial): (o: Builder)
    ensures o.roots == b.roots
  {
    b.(open := b.open + [part])
  }

  lemma InsideLaws(r: State, p: nat, f: Frame, phase: Phase)
    ensures SetTop(r.stack + [f], phase) == r.stack + [f.(phase := phase)]
    ensures Pop(Inside(r, p, f)) == r.(pos := p)
    ensures Complete(Inside(r, p, f)) ==
      Inside(r, p, f.(phase := if f.kind.ObjectFrame? then ObjectCommaOrEnd else ArrayCommaOrEnd))
  {
    assert (r.stack + [f])[..|r.stack|] == r.stack;
  }

  lemma ArrayLaws(b: Builder, items: seq<Json>, v: Json)
    ensures Put(Opened(b, PartialArray(items)), v) == Opened(b, PartialArray(items + [v]))
    ensures Close(Opened(b, PartialArray(items))) == Put(b, Arr(items))
  {
    var o := Opened(b, PartialArray(items));
    assert o.open[..|b.open|] == b.open;
  }

  lemma ObjectLaws(b: Builder, ms: seq<Member>, k: bytes, k2: bytes, v: Json)
    ensures Consume(Opened(b, PartialObject(ms, k)), MapKey(k2)) == Opened(b, PartialObject(ms, k2))
    ensures Put(Opened(b, PartialObject(ms, k)), v) == Opened(b, PartialObject(Upsert(ms, k, v), k))
    ensures Close(Opened(b, PartialObject(ms, k))) == Put(b, Obj(ms))
  {
    hide Upsert;
    var o := Opened(b, PartialObject(ms, k));
    assert o.open[..|b.open|] == b.open;
  }

  // ---- the first refused token of a text ----

  /** The first token of the value at p that the parser refuses is a split string. */
  predicate SplitValue(cfg: Config, s: bytes, p: nat, depth: nat)
    requires p <= |s|
    decreases |s| - p, 3
  {
    var q := SkipWs(s, p);
    && q < |s|
    && if s[q] == LBRACKET then !TooDeep(cfg, depth) && SplitArray(cfg, s, q + 1, depth + 1)
       else if s[q] == LBRACE then !TooDeep(cfg, depth) && SplitObject(cfg, s, q + 1, depth + 1)
       else s[q] == QUOTE && SplitErrors(cfg.strictUtf8, s, q)
  }

  predicate SplitArray(cfg: Config, s: bytes, p: nat, depth: nat)
    requires p <= |s|
    decreases |s| - p, 5
  {
    var q := SkipWs(s, p);
    At(s, q) != RBRACKET && SplitElements(cfg, s, q, depth)
  }

  predicate SplitElements(cfg: Config, s: bytes, p: nat, depth: nat)
    requires p <= |s|
    decreases |s| - p, 4
  {
    match ParseValue(cfg, Whole(s), p, depth, false)
    case Fail(_) => SplitValue(cfg, s, p, depth)
    case Ok(_, n) => SplitBehindElement(cfg, s, n, depth)
  }

  predicate SplitBehindElement(cfg: Config, s: bytes, n: nat, depth: nat)
    requires n <= |s|
    decreases |s| - n, 6
  {
    var q := SkipWs(s, n);
    At(s, q) == COMMA && SplitElements(cfg, s, q + 1, depth)
  }

  predicate SplitObject(cfg: Config, s: bytes, p: nat, depth: nat)
    requires p <= |s|
    decreases |s| - p, 5
  {
    At(s, SkipWs(s, p)) != RBRACE && SplitMembers(cfg, s, p, depth)
  }

  /** The key at q is refused, and it is a split string. */
  predicate SplitKey(cfg: Config, s: bytes, q: nat)
    requires q <= |s|
  {
    At(s, q) == QUOTE && ParseString(cfg.strictUtf8, Whole(s), q).Fail? && SplitErrors(cfg.strictUtf8, s, q)
  }

  predicate SplitMembers(cfg: Config, s: bytes, p: nat, depth: nat)
    requires p <= |s|
    decreases |s| - p, 4
  {
    match ParseKeyColon(cfg, Whole(s), p, [])
    case Fail(_) => SplitKey(cfg, s, SkipWs(s, p))
    case Ok(_, c) =>
      match ParseValue(cfg, Whole(s), c, depth, false)
      case Fail(_) => SplitValue(cfg, s, c, depth)
      case Ok(_, n) => SplitBehindMember(cfg, s, n, depth)
  }

  predicate SplitBehindMember(cfg: Config, s: bytes, n: nat, depth: nat)
    requires n <= |s|
    decreases |s| - n, 6
  {
    var q := SkipWs(s, n);
    At(s, q) == COMMA && SplitMembers(cfg, s, q + 1, depth)
  }

  /** The text is refused inside its value, and the first token refused is a split string. */
  predicate SplitText(cfg: Config, s: bytes) {
    var p := SkipBom(cfg, Whole(s));
    ParseValue(cfg, Whole(s), p, 0, true).Fail? && SplitValue(cfg, s, p, 0)
  }

  // ---- stopping ----

  /** The reader has stopped with an error, the parser's error e unless the token is a split string. */
  predicate Stops(x: State, e: Error, split: bool) { x.error.Some? && (x.error == Some(e) <==> !split) }

  /** It has stopped like that inside a value: no top-level value was completed. */
  ghost predicate Stuck(got: (Builder, State), b: Builder, e: Error, split: bool) {
    Stops(got.1, e, split) && got.0.roots == b.roots
  }

  /** What a parse outcome means for the run: on success it goes on behind the value, with the value put in place. */
  ghost predicate Follows(cfg: Config, mode: StreamMode, s: bytes, got: (Builder, State), pv: Parsed<Json>,
      split: bool, r: State, b: Builder) {
    match pv
    case Ok(v, n) => n <= |s| && got == Trace(cfg, mode, s, Complete(r.(pos := n)), Put(b, v))
    case Fail(e) => Stuck(got, b, e, split)
  }

  // ---- scalars ----

  /** A scalar is one event, or an error, exactly as the parser decides. */
  lemma ExpectScalar(cfg: Config, s: bytes, r: State, q: nat, top: bool)
    requires Rfc(cfg) && r.pos <= |s| && SkipWs(s, r.pos) == q < |s| && s[q] != LBRACE && s[q] != LBRACKET
    ensures var t := ExpectValue(cfg, s, r, top); var ps := ParseScalar(cfg, Whole(s), q, top);
      if ps.Ok? then t == Emit(Scalar(ps.value), Complete(r.(pos := ps.next)))
      else t.Halt? && Stops(t.state, ps.error, s[q] == QUOTE && SplitErrors(cfg.strictUtf8, s, q))
  {
    hide ParseString, StringAt, ParseLiteral, ParseNumber, Complete, SkipWs, SplitErrors;
    if s[q] == QUOTE {
      StringsAgree(cfg.strictUtf8, s, q);
      if StringAt(cfg.strictUtf8, s, q).Fail? { SameStringError(cfg.strictUtf8, s, q); }
    }
  }

  lemma ExpectContainer(cfg: Config, s: bytes, r: State, q: nat, top: bool)
    requires r.pos <= |s| && SkipWs(s, r.pos) == q < |s| && (s[q] == LBRACE || s[q] == LBRACKET)
    ensures ExpectValue(cfg, s, r, top) == Enter(cfg, r, q, if s[q] == LBRACE then ObjectFrame else ArrayFrame)
  {
    hide StringAt, ParseLiteral, ParseNumber, Complete, Enter;
  }

  // ---- values ----

  lemma {:induction false} ValueFollows(cfg: Config, mode: StreamMode, s: bytes, r: State, top: bool, b: Builder)
    requires Rfc(cfg) && Live(r) && r.pos <= |s|
    ensures Follows(cfg, mode, s, After(cfg, mode, s, ExpectValue(cfg, s, r, top), b),
                    ParseValue(cfg, Whole(s), r.pos, |r.stack|, top), SplitValue(cfg, s, r.pos, |r.stack|), r, b)
    decreases |s| - r.pos, 3
  {
    hide ParseValue, ParseScalar, ExpectValue, Trace, Complete, Put, Stops, SplitArray, SplitObject, SplitErrors;
    var q := SkipWs(s, r.pos);
    if q == |s| {
      EndFails(cfg, s, r.pos, |r.stack|, top);
      ExpectEnd(cfg, s, r, top);
    } else if s[q] == LBRACE || s[q] == LBRACKET {
      ContainerFollows(cfg, mode, s, r, q, top, b);
    } else {
      ScalarAt(cfg, Whole(s), r.pos, q, |r.stack|, top);
      ExpectScalar(cfg, s, r, q, top);
    }
  }

  /** What both say when the text ends where a value is expected. */
  function ValueMissing(s: bytes, top: bool): Error {
    Positioned(if top then UnexpectedEndOfInput else UnexpectedCharacter, |s|)
  }

  lemma ExpectEnd(cfg: Config, s: bytes, r: State, top: bool)
    requires r.pos <= |s| && SkipWs(s, r.pos) == |s|
    ensures var t := ExpectValue(cfg, s, r, top); t.Halt? && Stops(t.state, ValueMissing(s, top), false)
  {
    hide StringAt, ParseLiteral, ParseNumber, Complete, Enter;
  }

  lemma {:induction false} ContainerFollows(cfg: Config, mode: StreamMode, s: bytes, r: State, q: nat, top: bool,
      b: Builder)
    requires Rfc(cfg) && Live(r) && r.pos <= |s| && SkipWs(s, r.pos) == q < |s| && (s[q] == LBRACE || s[q] == LBRACKET)
    ensures Follows(cfg, mode, s, After(cfg, mode, s, ExpectValue(cfg, s, r, top), b),
                    ParseValue(cfg, Whole(s), r.pos, |r.stack|, top), SplitValue(cfg, s, r.pos, |r.stack|), r, b)
    decreases |s| - r.pos, 2
  {
    hide ParseValue, ParseArray, ParseObject, ExpectValue, Trace, Follows, SkipWs, SplitArray, SplitObject, SplitErrors;
    ExpectContainer(cfg, s, r, q, top);
    if s[q] == LBRACKET {
      ArrayOpens(cfg, Whole(s), r.pos, q, |r.stack|, top);
      if !TooDeep(cfg, |r.stack|) { ArrayFollows(cfg, mode, s, r, q + 1, b); }
    } else {
      ObjectOpens(cfg, Whole(s), r.pos, q, |r.stack|, top);
      if !TooDeep(cfg, |r.stack|) { ObjectFollows(cfg, mode, s, r, q + 1, b); }
    }
    if TooDeep(cfg, |r.stack|) {
      FailureFollows(cfg, mode, s, r, top, b);
    }
  }

  lemma FailureFollows(cfg: Config, mode: StreamMode, s: bytes, r: State, top: bool, b: Builder)
    requires r.pos <= |s| && ParseValue(cfg, Whole(s), r.pos, |r.stack|, top).Fail? && ExpectValue(cfg, s, r, top).Halt?
    requires Stops(ExpectValue(cfg, s, r, top).state, ParseValue(cfg, Whole(s), r.pos, |r.stack|, top).error,
                   SplitValue(cfg, s, r.pos, |r.stack|))
    ensures Follows(cfg, mode, s, After(cfg, mode, s, ExpectValue(cfg, s, r, top), b),
                    ParseValue(cfg, Whole(s), r.pos, |r.stack|, top), SplitValue(cfg, s, r.pos, |r.stack|), r, b)
  {
    hide ParseValue, ExpectValue, Trace, Stops, SplitValue;
  }

  lemma EndFails(cfg: Config, s: bytes, p: nat, depth: nat, top: bool)
    requires Rfc(cfg) && p <= |s| && SkipWs(s, p) == |s|
    ensures ParseValue(cfg, Whole(s), p, depth, top) == Fail(ValueMissing(s, top))
  {
    ScalarAt(cfg, Whole(s), p, |s|, depth, top);
  }

  const IN_ARRAY: Frame := Frame(ArrayFrame, ArrayValueOrEnd)
  const IN_OBJECT: Frame := Frame(ObjectFrame, ObjectKeyOrEnd)

  /** The reader's first step inside an array. */
  lemma FirstElementTurnIs(cfg: Config, mode: StreamMode, s: bytes, r: State, p: nat)
    requires Live(r) && p <= |s|
    ensures var t := OneTurn(cfg, mode, s, Inside(r, p, IN_ARRAY)); var q := SkipWs(s, p);
      if At(s, q) == RBRACKET then t == Emit(EndArray, Complete(r.(pos := q + 1)))
      else if q == |s| then t.Halt? && Stops(t.state, ValueMissing(s, false), false)
      else t == ExpectValue(cfg, s, Inside(r, q, IN_ARRAY), false)
  {
    hide SkipWs, SetTop, Complete, Pop, ExpectValue;
    var q := SkipWs(s, p);
    InsideLaws(r, q + 1, IN_ARRAY, ArrayValue);
    assert Inside(r, p, IN_ARRAY).(pos := q + 1) == Inside(r, q + 1, IN_ARRAY);
  }

  /** The parser's first step inside an array. */
  lemma FirstElementIs(cfg: Config, s: bytes, p: nat, depth: nat)
    requires Rfc(cfg) && p <= |s|
    ensures var q := SkipWs(s, p); var pa := ParseArray(cfg, Whole(s), p, depth);
      if At(s, q) == RBRACKET then pa == Ok(Arr([]), q + 1)
      else if q == |s| then pa == Fail(ValueMissing(s, false))
      else pa == ParseElements(cfg, Whole(s), q, depth, [])
    ensures var q := SkipWs(s, p);
      SplitArray(cfg, s, p, depth) <==> At(s, q) != RBRACKET && q < |s| && SplitElements(cfg, s, q, depth)
  {
    hide ParseElements, ParseValue, SplitBehindElement;
    var q := SkipWs(s, p);
    if q == |s| {
      EndFails(cfg, s, q, depth, false);
      ElementsStep(cfg, Whole(s), q, depth, []);
      assert !SplitValue(cfg, s, q, depth);
      assert !SplitElements(cfg, s, q, depth);
    }
  }

  lemma {:induction false} ArrayFollows(cfg: Config, mode: StreamMode, s: bytes, r: State, p: nat, b: Builder)
    requires Rfc(cfg) && Live(r) && r.pos < p <= |s|
    ensures Follows(cfg, mode, s, Trace(cfg, mode, s, Inside(r, p, IN_ARRAY), Opened(b, PartialArray([]))),
                    ParseArray(cfg, Whole(s), p, |r.stack| + 1), SplitArray(cfg, s, p, |r.stack| + 1), r, b)
    decreases |s| - p, 5
  {
    hide OneTurn, ParseArray, ParseElements, Trace, ExpectValue, Put, SkipWs, Complete, Inside, Opened, Close, Whole,
      SplitArray, SplitElements;
    var q := SkipWs(s, p);
    TraceTurn(cfg, mode, s, Inside(r, p, IN_ARRAY), Opened(b, PartialArray([])));
    FirstElementTurnIs(cfg, mode, s, r, p);
    FirstElementIs(cfg, s, p, |r.stack| + 1);
    ArrayLaws(b, [], Null);
    if q < |s| && At(s, q) != RBRACKET { ElementsFollow(cfg, mode, s, r, q, ArrayValueOrEnd, [], b); }
  }

  /** Elements from p on, when the reader expects a value inside an array. */
  lemma {:induction false} ElementsFollow(cfg: Config, mode: StreamMode, s: bytes, r: State, p: nat, phase: Phase,
      acc: seq<Json>, b: Builder)
    requires Rfc(cfg) && Live(r) && r.pos < p <= |s| && (phase == ArrayValue || phase == ArrayValueOrEnd)
    ensures Follows(cfg, mode, s,
      After(cfg, mode, s, ExpectValue(cfg, s, Inside(r, p, Frame(ArrayFrame, phase)), false),
        Opened(b, PartialArray(acc))),
      ParseElements(cfg, Whole(s), p, |r.stack| + 1, acc), SplitElements(cfg, s, p, |r.stack| + 1), r, b)
    decreases |s| - p, 4
  {
    hide ParseElements, ParseValue, ExpectValue, Trace, Stops, SplitValue, SplitBehindElement;
    var f := Frame(ArrayFrame, phase);
    var x, o := Inside(r, p, f), Opened(b, PartialArray(acc));
    ValueFollows(cfg, mode, s, x, false, o);
    ElementsStep(cfg, Whole(s), p, |r.stack| + 1, acc);
    var pv := ParseValue(cfg, Whole(s), p, |r.stack| + 1, false);
    if pv.Ok? {
      var n := pv.next;
      InsideLaws(r, n, f, ArrayCommaOrEnd);
      assert x.(pos := n) == Inside(r, n, f);
      ArrayLaws(b, acc, pv.value);
      AfterElement(cfg, mode, s, r, n, acc + [pv.value], b);
    }
  }

  /** Behind an element: the array closes, or a comma leads to the next one. */
  lemma {:induction false} AfterElement(cfg: Config, mode: StreamMode, s: bytes, r: State, n: nat, acc: seq<Json>,
      b: Builder)
    requires Rfc(cfg) && Live(r) && r.pos < n <= |s|
    ensures var sep := ParseSeparator(cfg, Whole(s), n, RBRACKET);
      var got := Trace(cfg, mode, s, Inside(r, n, Frame(ArrayFrame, ArrayCommaOrEnd)), Opened(b, PartialArray(acc)));
      var split := SplitBehindElement(cfg, s, n, |r.stack| + 1);
      if sep.Fail? then Stuck(got, b, sep.error, split)
      else if sep.value.Done? then Follows(cfg, mode, s, got, Ok(Arr(acc), sep.next), split, r, b)
      else Follows(cfg, mode, s, got, ParseElements(cfg, Whole(s), sep.next, |r.stack| + 1, acc), split, r, b)
    decreases |s| - n, 6
  {
    hide OneTurn, ParseSeparator, ParseElements, Trace, ExpectValue, Put, SkipWs, Complete, Inside, Opened, Close,
      Whole, Stops;
    var x, o := Inside(r, n, Frame(ArrayFrame, ArrayCommaOrEnd)), Opened(b, PartialArray(acc));
    var q := SkipWs(s, n);
    TraceTurn(cfg, mode, s, x, o);
    CommaTurnIs(cfg, mode, s, r, n, ArrayFrame);
    SeparatorIs(cfg, s, n, ArrayFrame);
    ArrayLaws(b, acc, Null);
    if At(s, q) == COMMA {
      TraceTurn(cfg, mode, s, Inside(r, q + 1, Frame(ArrayFrame, ArrayValue)), o);
      ValueTurnIs(cfg, mode, s, r, q + 1, Frame(ArrayFrame, ArrayValue));
      ElementsFollow(cfg, mode, s, r, q + 1, ArrayValue, acc, b);
    }
  }

  /** What both say when neither the close nor a comma stands behind a value. */
  function SeparatorMissing(s: bytes, kind: Kind, q: nat): Error {
    Positioned(if kind.ArrayFrame? then ExpectedCommaOrBracket else if q >= |s| then UnexpectedEndOfObject
      else ExpectedCommaOrBrace, q)
  }

  /** The reader's step behind a value of a container. */
  lemma CommaTurnIs(cfg: Config, mode: StreamMode, s: bytes, r: State, n: nat, kind: Kind)
    requires Live(r) && n <= |s|
    ensures var inArray := kind.ArrayFrame?;
      var t := OneTurn(cfg, mode, s, Inside(r, n, Frame(kind, if inArray then ArrayCommaOrEnd else ObjectCommaOrEnd)));
      var q := SkipWs(s, n);
      if At(s, q) == (if inArray then RBRACKET else RBRACE) then
        t == Emit(if inArray then EndArray else EndObject, Complete(r.(pos := q + 1)))
      else if At(s, q) == COMMA then t == Go(Inside(r, q + 1, Frame(kind, if inArray then ArrayValue else ObjectKey)))
      else t.Halt? && Stops(t.state, SeparatorMissing(s, kind, q), false)
  {
    hide SkipWs, SetTop, Complete, Pop;
    var f := Frame(kind, if kind.ArrayFrame? then ArrayCommaOrEnd else ObjectCommaOrEnd);
    var q := SkipWs(s, n);
    InsideLaws(r, q + 1, f, if kind.ArrayFrame? then ArrayValue else ObjectKey);
    assert Inside(r, n, f).(pos := q + 1) == Inside(r, q + 1, f);
  }

  /** The parser's step behind a value of a container. */
  lemma SeparatorIs(cfg: Config, s: bytes, n: nat, kind: Kind)
    requires Rfc(cfg) && n <= |s|
    ensures var close := if kind.ArrayFrame? then RBRACKET else RBRACE;
      var sep := ParseSeparator(cfg, Whole(s), n, close); var q := SkipWs(s, n);
      if At(s, q) == close then sep == Ok(Done, q + 1)
      else if At(s, q) == COMMA then sep == Ok(Another, q + 1)
      else sep == Fail(SeparatorMissing(s, kind, q))
  {
  }

  // ---- objects ----

  lemma {:induction false} ObjectFollows(cfg: Config, mode: StreamMode, s: bytes, r: State, p: nat, b: Builder)
    requires Rfc(cfg) && Live(r) && r.pos < p <= |s|
    ensures Follows(cfg, mode, s, Trace(cfg, mode, s, Inside(r, p, IN_OBJECT), Opened(b, PartialObject([], []))),
                    ParseObject(cfg, Whole(s), p, |r.stack| + 1), SplitObject(cfg, s, p, |r.stack| + 1), r, b)
    decreases |s| - p, 8
  {
    hide OneTurn, ParseObject, ParseMembers, Trace, Put, SkipWs, Complete, Inside, Opened, Close, Whole, Stops;
    var q := SkipWs(s, p);
    if At(s, q) == RBRACE {
      TraceTurn(cfg, mode, s, Inside(r, p, IN_OBJECT), Opened(b, PartialObject([], [])));
      EmptyObjectTurnIs(cfg, mode, s, r, p);
      ObjectLaws(b, [], [], [], Null);
    } else {
      MembersFollow(cfg, mode, s, r, p, ObjectKeyOrEnd, [], [], b);
      SkipMembers(cfg, s, p, q, |r.stack| + 1);
    }
    FirstMemberIs(cfg, s, p, |r.stack| + 1);
  }

  lemma EmptyObjectTurnIs(cfg: Config, mode: StreamMode, s: bytes, r: State, p: nat)
    requires Live(r) && p <= |s| && At(s, SkipWs(s, p)) == RBRACE
    ensures OneTurn(cfg, mode, s, Inside(r, p, IN_OBJECT)) == Emit(EndObject, Complete(r.(pos := SkipWs(s, p) + 1)))
  {
    hide SkipWs, SetTop, Complete, Pop, StringAt;
    var q := SkipWs(s, p);
    InsideLaws(r, q + 1, IN_OBJECT, ObjectKey);
    assert Inside(r, p, IN_OBJECT).(pos := q + 1) == Inside(r, q + 1, IN_OBJECT);
  }

  lemma FirstMemberIs(cfg: Config, s: bytes, p: nat, depth: nat)
    requires Rfc(cfg) && p <= |s|
    ensures var q := SkipWs(s, p);
      ParseObject(cfg, Whole(s), p, depth) ==
        if At(s, q) == RBRACE then Ok(Obj([]), q + 1) else ParseMembers(cfg, Whole(s), q, depth, [])
  {
    hide ParseMembers;
  }

  /** Leading white space does not matter to the member loop. */
  lemma SkipMembers(cfg: Config, s: bytes, p: nat, q: nat, depth: nat)
    requires Rfc(cfg) && p <= |s| && q == SkipWs(s, p)
    ensures ParseMembers(cfg, Whole(s), q, depth, []) == ParseMembers(cfg, Whole(s), p, depth, [])
  {
    assert SkipWs(s, q) == q;
    assert ParseKeyColon(cfg, Whole(s), q, []) == ParseKeyColon(cfg, Whole(s), p, []) by { hide ParseKey; }
    MembersStep(cfg, Whole(s), p, depth, []);
    MembersStep(cfg, Whole(s), q, depth, []);
    hide ParseKeyColon, ParseValue, ParseSeparator, ParseMembers;
  }

  /** The parser's key step in the reader's terms. */
  lemma KeyColonIs(cfg: Config, s: bytes, p: nat, acc: seq<Member>)
    requires Rfc(cfg) && p <= |s|
    ensures var q := SkipWs(s, p); var kc := ParseKeyColon(cfg, Whole(s), p, acc);
      if At(s, q) != QUOTE then kc == Fail(Positioned(ExpectedStringKey, q))
      else
        var key := StringAt(cfg.strictUtf8, s, q);
        if key.Fail? then kc == ParseString(cfg.strictUtf8, Whole(s), q)
        else
          var c := SkipWs(s, key.next);
          kc == if At(s, c) != COLON then Fail(Positioned(ExpectedColon, c)) else Ok(key.value, c + 1)
  {
    hide StringAt, ParseString, SkipWs;
    var q := SkipWs(s, p);
    if At(s, q) == QUOTE { StringsAgree(cfg.strictUtf8, s, q); }
  }

  /** The parser's reason for refusing the key at q. */
  function KeyRefused(cfg: Config, s: bytes, q: nat): Error
    requires q <= |s|
  {
    if At(s, q) != QUOTE then Positioned(ExpectedStringKey, q)
    else
      match ParseString(cfg.strictUtf8, Whole(s), q)
      case Fail(e) => e
      case Ok(_, _) => Positioned(ExpectedStringKey, q)
  }

  /** The reader's key step. */
  lemma KeyTurnIs(cfg: Config, mode: StreamMode, s: bytes, r: State, p: nat, phase: Phase)
    requires Live(r) && p <= |s| && (phase == ObjectKey || (phase == ObjectKeyOrEnd && At(s, SkipWs(s, p)) != RBRACE))
    ensures var t := OneTurn(cfg, mode, s, Inside(r, p, Frame(ObjectFrame, phase))); var q := SkipWs(s, p);
      if At(s, q) != QUOTE || StringAt(cfg.strictUtf8, s, q).Fail? then
        t.Halt? && Stops(t.state, KeyRefused(cfg, s, q), SplitKey(cfg, s, q))
      else
        var key := StringAt(cfg.strictUtf8, s, q);
        t == Emit(MapKey(key.value), Inside(r, key.next, Frame(ObjectFrame, ObjectColon)))
  {
    hide StringAt, SkipWs, SetTop, ParseString, SplitErrors;
    var f, q := Frame(ObjectFrame, phase), SkipWs(s, p);
    InsideLaws(r, p, f, ObjectColon);
    if At(s, q) == QUOTE && StringAt(cfg.strictUtf8, s, q).Fail? { SameStringError(cfg.strictUtf8, s, q); }
  }

  /** After its key step the reader stands before the colon, or has failed. */
  lemma KeyStepFollows(cfg: Config, mode: StreamMode, s: bytes, r: State, p: nat, phase: Phase, acc: seq<Member>,
      k: bytes, b: Builder)
    requires Live(r) && p <= |s| && (phase == ObjectKey || (phase == ObjectKeyOrEnd && At(s, SkipWs(s, p)) != RBRACE))
    ensures var q := SkipWs(s, p);
      var got := Trace(cfg, mode, s, Inside(r, p, Frame(ObjectFrame, phase)), Opened(b, PartialObject(acc, k)));
      if At(s, q) != QUOTE || StringAt(cfg.strictUtf8, s, q).Fail? then
        Stuck(got, b, KeyRefused(cfg, s, q), SplitKey(cfg, s, q))
      else
        var key := StringAt(cfg.strictUtf8, s, q);
        got == Trace(cfg, mode, s, Inside(r, key.next, Frame(ObjectFrame, ObjectColon)),
          Opened(b, PartialObject(acc, key.value)))
  {
    hide Trace, StringAt, OneTurn, SkipWs, Inside, Consume, Opened, Stops, KeyRefused, SplitKey;
    var q := SkipWs(s, p);
    TraceTurn(cfg, mode, s, Inside(r, p, Frame(ObjectFrame, phase)), Opened(b, PartialObject(acc, k)));
    KeyTurnIs(cfg, mode, s, r, p, phase);
    if At(s, q) == QUOTE && StringAt(cfg.strictUtf8, s, q).Ok? {
      ObjectLaws(b, acc, k, StringAt(cfg.strictUtf8, s, q).value, Null);
    }
  }

  /**
   The reader stands before the member's value when the parser got its key and colon, and has failed when it did not.
   */
  ghost predicate AtMemberValue(cfg: Config, mode: StreamMode, s: bytes, got: (Builder, State), kc: Parsed<bytes>,
      q: nat, r: State, acc: seq<Member>, b: Builder)
    requires q <= |s|
  {
    match kc
    case Ok(key, n) =>
      n <= |s| && got == After(cfg, mode, s, ExpectValue(cfg, s, Inside(r, n, Frame(ObjectFrame, ObjectValue)), false),
                               Opened(b, PartialObject(acc, key)))
    case Fail(e) => Stuck(got, b, e, SplitKey(cfg, s, q))
  }

  /** The key and the colon of a member, when the reader expects a key. */
  lemma KeyFollows(cfg: Config, mode: StreamMode, s: bytes, r: State, p: nat, phase: Phase, acc: seq<Member>, k: bytes,
      b: Builder)
    requires Rfc(cfg) && Live(r) && r.pos < p <= |s|
    requires phase == ObjectKey || (phase == ObjectKeyOrEnd && At(s, SkipWs(s, p)) != RBRACE)
    ensures AtMemberValue(cfg, mode, s,
      Trace(cfg, mode, s, Inside(r, p, Frame(ObjectFrame, phase)), Opened(b, PartialObject(acc, k))),
                          ParseKeyColon(cfg, Whole(s), p, acc), SkipWs(s, p), r, acc, b)
  {
    hide Trace, ExpectValue, StringAt, ParseString, ParseKeyColon, SkipWs, Inside, Opened, After, SplitErrors;
    var q := SkipWs(s, p);
    KeyStepFollows(cfg, mode, s, r, p, phase, acc, k, b);
    KeyColonIs(cfg, s, p, acc);
    if At(s, q) == QUOTE {
      StringsAgree(cfg.strictUtf8, s, q);
      var key := StringAt(cfg.strictUtf8, s, q);
      if key.Ok? { ColonFollows(cfg, mode, s, r, key.next, Opened(b, PartialObject(acc, key.value))); }
    }
  }

  lemma ColonTurnIs(cfg: Config, mode: StreamMode, s: bytes, r: State, n: nat)
    requires Live(r) && n <= |s|
    ensures var t := OneTurn(cfg, mode, s, Inside(r, n, Frame(ObjectFrame, ObjectColon))); var c := SkipWs(s, n);
      if At(s, c) != COLON then t.Halt? && Stops(t.state, Positioned(ExpectedColon, c), false)
      else t == Go(Inside(r, c + 1, Frame(ObjectFrame, ObjectValue)))
  {
    hide SkipWs, SetTop;
    InsideLaws(r, n, Frame(ObjectFrame, ObjectColon), ObjectValue);
  }

  lemma ValueTurnIs(cfg: Config, mode: StreamMode, s: bytes, r: State, n: nat, f: Frame)
    requires Live(r) && n <= |s| && (f.phase == ObjectValue || f.phase == ArrayValue)
    ensures OneTurn(cfg, mode, s, Inside(r, n, f)) == ExpectValue(cfg, s, Inside(r, n, f), false)
  {
    hide ExpectValue;
  }

  lemma ColonFollows(cfg: Config, mode: StreamMode, s: bytes, r: State, n: nat, o: Builder)
    requires Rfc(cfg) && Live(r) && r.pos < n <= |s|
    ensures var got := Trace(cfg, mode, s, Inside(r, n, Frame(ObjectFrame, ObjectColon)), o);
      var c := SkipWs(s, n);
      if At(s, c) != COLON then Stuck(got, o, Positioned(ExpectedColon, c), false)
      else got == After(cfg, mode, s, ExpectValue(cfg, s, Inside(r, c + 1, Frame(ObjectFrame, ObjectValue)), false), o)
  {
    hide Trace, ExpectValue, OneTurn, SkipWs, Inside, Consume, Stops;
    var c := SkipWs(s, n);
    TraceTurn(cfg, mode, s, Inside(r, n, Frame(ObjectFrame, ObjectColon)), o);
    ColonTurnIs(cfg, mode, s, r, n);
    if At(s, c) == COLON {
      TraceTurn(cfg, mode, s, Inside(r, c + 1, Frame(ObjectFrame, ObjectValue)), o);
      ValueTurnIs(cfg, mode, s, r, c + 1, Frame(ObjectFrame, ObjectValue));
    }
  }

  lemma SplitMembersIs(cfg: Config, s: bytes, p: nat, depth: nat, acc: seq<Member>)
    requires Rfc(cfg) && p <= |s|
    ensures var kc := ParseKeyColon(cfg, Whole(s), p, acc);
      if kc.Fail? then SplitMembers(cfg, s, p, depth) == SplitKey(cfg, s, SkipWs(s, p))
      else
        var pv := ParseValue(cfg, Whole(s), kc.next, depth, false);
        SplitMembers(cfg, s, p, depth) ==
          if pv.Fail? then SplitValue(cfg, s, kc.next, depth) else SplitBehindMember(cfg, s, pv.next, depth)
  {
    hide ParseValue, SplitValue, SplitBehindMember, SplitKey;
    assert ParseKeyColon(cfg, Whole(s), p, acc) == ParseKeyColon(cfg, Whole(s), p, []) by { hide ParseKey; }
    hide ParseKeyColon;
  }

  lemma {:induction false} MembersFollow(cfg: Config, mode: StreamMode, s: bytes, r: State, p: nat, phase: Phase,
                                         acc: seq<Member>, k: bytes, b: Builder)
    requires Rfc(cfg) && Live(r) && r.pos < p <= |s|
    requires phase == ObjectKey || (phase == ObjectKeyOrEnd && At(s, SkipWs(s, p)) != RBRACE)
    ensures Follows(cfg, mode, s,
      Trace(cfg, mode, s, Inside(r, p, Frame(ObjectFrame, phase)), Opened(b, PartialObject(acc, k))),
                    ParseMembers(cfg, Whole(s), p, |r.stack| + 1, acc), SplitMembers(cfg, s, p, |r.stack| + 1), r, b)
    decreases |s| - p, 7
  {
    hide ParseKeyColon, ParseMembers, ParseValue, ExpectValue, Trace, Upsert, Stops, SplitMembers, SplitValue, SplitKey,
      SplitBehindMember;
    SplitMembersIs(cfg, s, p, |r.stack| + 1, acc);
    KeyFollows(cfg, mode, s, r, p, phase, acc, k, b);
    MembersStep(cfg, Whole(s), p, |r.stack| + 1, acc);
    var kc := ParseKeyColon(cfg, Whole(s), p, acc);
    if kc.Ok? {
      var f := Frame(ObjectFrame, ObjectValue);
      var x, o := Inside(r, kc.next, f), Opened(b, PartialObject(acc, kc.value));
      ValueFollows(cfg, mode, s, x, false, o);
      var pv := ParseValue(cfg, Whole(s), kc.next, |r.stack| + 1, false);
      if pv.Ok? {
        var n := pv.next;
        InsideLaws(r, n, f, ObjectCommaOrEnd);
        assert x.(pos := n) == Inside(r, n, f);
        ObjectLaws(b, acc, kc.value, kc.value, pv.value);
        AfterMember(cfg, mode, s, r, n, Upsert(acc, kc.value, pv.value), kc.value, b);
      }
    }
  }

  /** Behind a member: the object closes, or a comma leads to the next key. */
  lemma {:induction false} AfterMember(cfg: Config, mode: StreamMode, s: bytes, r: State, n: nat, acc: seq<Member>,
      k: bytes, b: Builder)
    requires Rfc(cfg) && Live(r) && r.pos < n <= |s|
    ensures var sep := ParseSeparator(cfg, Whole(s), n, RBRACE);
      var got := Trace(cfg, mode, s, Inside(r, n, Frame(ObjectFrame, ObjectCommaOrEnd)),
        Opened(b, PartialObject(acc, k)));
      var split := SplitBehindMember(cfg, s, n, |r.stack| + 1);
      if sep.Fail? then Stuck(got, b, sep.error, split)
      else if sep.value.Done? then Follows(cfg, mode, s, got, Ok(Obj(acc), sep.next), split, r, b)
      else Follows(cfg, mode, s, got, ParseMembers(cfg, Whole(s), sep.next, |r.stack| + 1, acc), split, r, b)
    decreases |s| - n, 9
  {
    hide OneTurn, ParseSeparator, ParseMembers, Trace, ExpectValue, Put, SkipWs, Complete, Inside, Opened, Close,
      Whole, Stops;
    var x, o := Inside(r, n, Frame(ObjectFrame, ObjectCommaOrEnd)), Opened(b, PartialObject(acc, k));
    var q := SkipWs(s, n);
    TraceTurn(cfg, mode, s, x, o);
    CommaTurnIs(cfg, mode, s, r, n, ObjectFrame);
    SeparatorIs(cfg, s, n, ObjectFrame);
    ObjectLaws(b, acc, k, k, Null);
    if At(s, q) == COMMA { MembersFollow(cfg, mode, s, r, q + 1, ObjectKey, acc, k, b); }
  }

  // ---- whole streams ----

  /**
   A SingleRoot reader ends cleanly on exactly the inputs the parser accepts, and folding its events gives the parser's
   value. On a refused input the two report the same error, code and offset, if and only if the first token refused is
   no split string. Same BOM, UTF-8 and depth settings; JSON5 and strict duplicate keys off.
   */
  lemma ReaderAgreesWithParser(cfg: Config, s: bytes)
    requires Rfc(cfg)
    ensures var x := Events(cfg, SingleRoot, s); var d := ParseDocument(cfg, Whole(s));
      && (EndsCleanly(x) <==> d.Ok?)
      && (d.Ok? ==> Fold(NoValue, x.events) == Builder([], [d.value]))
      && (d.Fail? ==> (x.state.error == Some(d.error) <==> !SplitText(cfg, s)))
  {
    hide ParseValue, ExpectValue, Trace, Run, Fold, SplitValue;
    var r := Start(cfg, s);
    TraceFolds(cfg, SingleRoot, s, r, NoValue);
    TraceTurn(cfg, SingleRoot, s, r, NoValue);
    ValueFollows(cfg, SingleRoot, s, r, true, NoValue);
    var pv := ParseValue(cfg, Whole(s), r.pos, 0, true);
    if pv.Ok? {
      var x := Complete(r.(pos := pv.next));
      TraceTurn(cfg, SingleRoot, s, x, Put(NoValue, pv.value));
      assert Put(NoValue, pv.value) == Builder([], [pv.value]);
    }
  }
}
