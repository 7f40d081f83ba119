/**
 What the reader emits is always well nested: the events so far are those of some finished values followed by the
 opened part of the containers on its stack, so a clean run is the event sequence of a list of trees.
 */
module EventsNest {
  import opened Core
  import opened Grammar
  import opened ParserSpec
  import opened StreamSpec
  import opened ItemsSpec
  import opened ItemsCorrect

  /** An open container with every entry it has seen, repeated keys included. */
  datatype Raw = RawArray(items: seq<Json>) | RawObject(members: seq<Member>, pending: Option<bytes>)

  /** The finished top-level values and the open containers, outermost first. */
  datatype Trees = Trees(roots: seq<Json>, open: seq<Raw>)

  function OpenEvents(p: Raw): seq<Event> {
    match p
    case RawArray(items) => [BeginArray] + FlattenItems(Arr(items), 0)
    case RawObject(ms, None) => [BeginObject] + FlattenMembers(Obj(ms), 0)
    case RawObject(ms, Some(k)) => [BeginObject] + FlattenMembers(Obj(ms), 0) + [MapKey(k)]
  }

  /** The events that describe these trees. */
  function Emitted(roots: seq<Json>, open: seq<Raw>): seq<Event> {
    if |open| == 0 then FlattenAll(roots) else Emitted(roots, open[..|open| - 1]) + OpenEvents(open[|open| - 1])
  }

  predicate AwaitsValue(p: Raw) { p.RawArray? || p.pending.Some? }

  predicate TopFits(f: Frame, p: Raw) {
    match f.phase
    case ObjectKeyOrEnd => f.kind.ObjectFrame? && p.RawObject? && p.pending.None?
    case ObjectKey => f.kind.ObjectFrame? && p.RawObject? && p.pending.None?
    case ObjectCommaOrEnd => f.kind.ObjectFrame? && p.RawObject? && p.pending.None?
    case ObjectColon => f.kind.ObjectFrame? && p.RawObject? && p.pending.Some?
    case ObjectValue => f.kind.ObjectFrame? && p.RawObject? && p.pending.Some?
    case _ => f.kind.ArrayFrame? && p.RawArray?
  }

  /** Open containers below the top wait for the value being read. */
  ghost predicate Fits(stack: seq<Frame>, open: seq<Raw>) {
    && |stack| == |open|
    && (forall i :: 0 <= i < |stack| ==> TopFits(stack[i], open[i]))
    && (forall i :: 0 <= i < |stack| - 1 ==> AwaitsValue(open[i]))
  }

  /** The emitted events are those of the trees, and the stack mirrors the open containers. */
  ghost predicate Nested(es: seq<Event>, r: State, t: Trees) {
    es == Emitted(t.roots, t.open) && Fits(r.stack, t.open) && (r.rootDone || r.finished ==> r.stack == [])
  }

  lemma {:induction false} ItemsSnoc(items: seq<Json>, v: Json, k: nat)
    requires k <= |items|
    ensures FlattenItems(Arr(items + [v]), k) == FlattenItems(Arr(items), k) + Flatten(v)
    decreases |items| - k
  {
    var a, b := Arr(items), Arr(items + [v]);
    if k < |items| {
      assert b.items[k] == items[k];
      ItemsSnoc(items, v, k + 1);
      hide Flatten;
      Assoc(Flatten(items[k]), FlattenItems(a, k + 1), Flatten(v));
    } else {
      assert b.items[k] == v && FlattenItems(b, k + 1) == [];
      hide Flatten;
    }
  }

  lemma {:induction false} MembersSnoc(ms: seq<Member>, m: Member, k: nat)
    requires k <= |ms|
    ensures FlattenMembers(Obj(ms + [m]), k) == FlattenMembers(Obj(ms), k) + ([MapKey(m.key)] + Flatten(m.value))
    decreases |ms| - k
  {
    var a, b := Obj(ms), Obj(ms + [m]);
    if k < |ms| {
      assert b.members[k] == ms[k];
      MembersSnoc(ms, m, k + 1);
      hide Flatten;
      Assoc([MapKey(ms[k].key)] + Flatten(ms[k].value), FlattenMembers(a, k + 1), [MapKey(m.key)] + Flatten(m.value));
    } else {
      assert b.members[k] == m && FlattenMembers(b, k + 1) == [];
      hide Flatten;
    }
  }

  /** An open container that receives its next value. */
  function Received(p: Raw, v: Json): Raw
    requires AwaitsValue(p)
  {
    match p
    case RawArray(items) => RawArray(items + [v])
    case RawObject(ms, k) => RawObject(ms + [Member(k.value, v)], None)
  }

  lemma ReceivedEvents(p: Raw, v: Json)
    requires AwaitsValue(p)
    ensures OpenEvents(Received(p, v)) == OpenEvents(p) + Flatten(v)
  {
    match p
    case RawArray(items) =>
      ItemsSnoc(items, v, 0);
      hide Flatten, FlattenItems;
      Assoc([BeginArray], FlattenItems(Arr(items), 0), Flatten(v));
    case RawObject(ms, Some(k)) =>
      MembersSnoc(ms, Member(k, v), 0);
      hide Flatten, FlattenMembers;
      var body := FlattenMembers(Obj(ms), 0);
      assert [BeginObject] + (body + ([MapKey(k)] + Flatten(v))) == [BeginObject] + body + [MapKey(k)] + Flatten(v);
    case RawObject(_, None) =>
  }

  /** A finished value goes where the machine puts it. */
  function Place(t: Trees, v: Json): Trees
    requires |t.open| > 0 ==> AwaitsValue(t.open[|t.open| - 1])
  {
    if |t.open| == 0 then Trees(t.roots + [v], [])
    else Trees(t.roots, t.open[..|t.open| - 1] + [Received(t.open[|t.open| - 1], v)])
  }

  lemma {:induction false} FlattenAllSnoc(vs: seq<Json>, v: Json)
    ensures FlattenAll(vs + [v]) == FlattenAll(vs) + Flatten(v)
  {
    if |vs| == 0 {
      assert (vs + [v])[1..] == [];
    } else {
      assert (vs + [v])[1..] == vs[1..] + [v];
      FlattenAllSnoc(vs[1..], v);
      hide Flatten;
      Assoc(Flatten(vs[0]), FlattenAll(vs[1..]), Flatten(v));
    }
  }

  lemma EmittedTop(roots: seq<Json>, below: seq<Raw>, p: Raw)
    ensures Emitted(roots, below + [p]) == Emitted(roots, below) + OpenEvents(p)
  {
    assert (below + [p])[..|below|] == below;
  }

  lemma PlaceEvents(t: Trees, v: Json)
    requires |t.open| > 0 ==> AwaitsValue(t.open[|t.open| - 1])
    ensures Emitted(Place(t, v).roots, Place(t, v).open) == Emitted(t.roots, t.open) + Flatten(v)
  {
    if |t.open| == 0 {
      FlattenAllSnoc(t.roots, v);
    } else {
      var below, p := t.open[..|t.open| - 1], t.open[|t.open| - 1];
      ReceivedEvents(p, v);
      EmittedTop(t.roots, below, Received(p, v));
      hide OpenEvents, Flatten, Received;
      Assoc(Emitted(t.roots, below), OpenEvents(p), Flatten(v));
    }
  }

  /** Before a value of the innermost container, its frame waits for one. */
  ghost predicate ExpectsValue(r: State) {
    !r.rootDone && !r.finished &&
    (|r.stack| > 0 ==> Top(r).phase.ObjectValue? || Top(r).phase.ArrayValue? || Top(r).phase.ArrayValueOrEnd?)
  }

  lemma PlacedNests(es: seq<Event>, r: State, t: Trees, v: Json, tail: seq<Event>)
    requires Nested(es, r, t) && (|t.open| > 0 ==> AwaitsValue(t.open[|t.open| - 1])) && tail == Flatten(v)
    ensures Nested(es + tail, Complete(r), Place(t, v))
  {
    hide Emitted;
    PlaceEvents(t, v);
  }

  /** One turn keeps the nesting: its event is appended, or nothing is. */
  lemma TurnNests(cfg: Config, mode: StreamMode, s: bytes, r: State, es: seq<Event>, t: Trees) returns (t': Trees)
    requires r.pos <= |s| && Nested(es, r, t) && !r.finished
    ensures var o := OneTurn(cfg, mode, s, r);
      && Nested(if o.Emit? then es + [o.event] else es, o.state, t')
      && (if o.Halt? then o.state.error.Some? || o.state.finished else !o.state.finished)
  {
    hide ExpectValue, FrameTurn, SkipWs, Emitted, Fits;
    t' := t;
    if r.error.Some? || r.rootDone {
      hide IsWs;
    } else if |r.stack| == 0 {
      var q := SkipWs(s, r.pos);
      if mode.SingleRoot? {
        t' := ValueNests(cfg, s, r, true, es, t);
      } else if q < |s| {
        t' := ValueNests(cfg, s, r.(pos := q), true, es, t);
      }
    } else {
      t' := FrameNests(cfg, s, r, es, t);
    }
  }

  lemma ValueNests(cfg: Config, s: bytes, r: State, atRoot: bool, es: seq<Event>, t: Trees) returns (t': Trees)
    requires r.pos <= |s| && Nested(es, r, t) && ExpectsValue(r)
    ensures Keeps(ExpectValue(cfg, s, r, atRoot), es, t')
  {
    hide ExpectValue, Emitted;
    t' := t;
    var o := ExpectValue(cfg, s, r, atRoot);
    ExpectShape(cfg, s, r, atRoot);
    if |r.stack| > 0 { TopIs(es, r, t); }
    if o.Emit? && o.event.Scalar? {
      t' := Place(t, o.event.value);
      PlacedNests(es, r, t, o.event.value, [o.event]);
      hide Place;
    } else if o.Emit? {
      t' := OpenNests(es, r, t, o);
      hide Nested;
    }
  }

  lemma OpenNests(es: seq<Event>, r: State, t: Trees, o: Turn) returns (t': Trees)
    requires Nested(es, r, t) && ExpectsValue(r) && o.Emit?
    requires exists n: nat, kind: Kind ::
      o == Emit(if kind.ObjectFrame? then BeginObject else BeginArray, Entered(r, n, kind))
    ensures Nested(es + [o.event], o.state, t')
  {
    hide Emitted;
    var p := if o.event.BeginObject? then RawObject([], None) else RawArray([]);
    t' := Trees(t.roots, t.open + [p]);
    EmittedTop(t.roots, t.open, p);
  }

  /** The state inside a container just opened. */
  function Entered(r: State, n: nat, kind: Kind): State {
    r.(pos := n, stack := r.stack + [Frame(kind, if kind.ObjectFrame? then ObjectKeyOrEnd else ArrayValueOrEnd)])
  }

  /** A value turn emits an opening bracket or a scalar, or stops. */
  lemma ExpectShape(cfg: Config, s: bytes, r: State, atRoot: bool)
    requires r.pos <= |s|
    ensures var o := ExpectValue(cfg, s, r, atRoot);
      match o
      case Halt(x) => x == r.(error := x.error) && x.error.Some?
      case Emit(e, x) =>
        if e.Scalar? then IsScalarValue(e.value) && exists n: nat :: x == Complete(r.(pos := n))
        else exists n: nat, kind: Kind ::
          o == Emit(if kind.ObjectFrame? then BeginObject else BeginArray, Entered(r, n, kind))
      case Go(_) => false
  {
    var q := SkipWs(s, r.pos);
    var o := ExpectValue(cfg, s, r, atRoot);
    hide SkipWs, StringAt, ParseLiteral;
    if o.Emit? && q < |s| && (s[q] == LBRACE || s[q] == LBRACKET) {
      var kind := if s[q] == LBRACE then ObjectFrame else ArrayFrame;
      assert o == Emit(if kind.ObjectFrame? then BeginObject else BeginArray, Entered(r, q + 1, kind));
    }
  }

  predicate IsScalarValue(v: Json) { !v.Arr? && !v.Obj? }

  /** The turn kept the nesting, and stopped only with an error. */
  ghost predicate Keeps(o: Turn, es: seq<Event>, t': Trees) {
    && Nested(if o.Emit? then es + [o.event] else es, o.state, t')
    && !o.state.finished && (o.Halt? ==> o.state.error.Some?)
  }

  lemma FrameNests(cfg: Config, s: bytes, r: State, es: seq<Event>, t: Trees) returns (t': Trees)
    requires r.pos <= |s| && Nested(es, r, t) && |r.stack| > 0 && !r.rootDone && !r.finished
    ensures Keeps(FrameTurn(cfg, s, r), es, t')
  {
    hide ExpectValue, KeyTurn, CommaTurn, SkipWs, CloseTurn, Nested;
    TopIs(es, r, t);
    match Top(r).phase
    case ObjectKeyOrEnd => t' := KeyNests(cfg, s, r, es, t);
    case ObjectKey => t' := KeyNests(cfg, s, r, es, t);
    case ObjectColon => t' := ColonNests(cfg, s, r, es, t);
    case ObjectValue => t' := ValueNests(cfg, s, r, false, es, t);
    case ObjectCommaOrEnd => t' := CommaNests(s, r, RBRACE, EndObject, ObjectKey, UnexpectedEndOfObject,
      ExpectedCommaOrBrace, es, t);
    case ArrayValueOrEnd => t' := FirstElementNests(cfg, s, r, es, t);
    case ArrayValue => t' := ValueNests(cfg, s, r, false, es, t);
    case ArrayCommaOrEnd =>
      t' := CommaNests(s, r, RBRACKET, EndArray, ArrayValue, ExpectedCommaOrBracket, ExpectedCommaOrBracket, es, t);
  }

  lemma ColonNests(cfg: Config, s: bytes, r: State, es: seq<Event>, t: Trees) returns (t': Trees)
    requires r.pos <= |s| && Nested(es, r, t) && |r.stack| > 0 && !r.rootDone && !r.finished &&
      Top(r).phase.ObjectColon?
    ensures Keeps(FrameTurn(cfg, s, r), es, t')
  {
    hide ExpectValue, KeyTurn, CommaTurn, SkipWs, Emitted;
    t' := t;
  }

  lemma FirstElementNests(cfg: Config, s: bytes, r: State, es: seq<Event>, t: Trees) returns (t': Trees)
    requires r.pos <= |s| && Nested(es, r, t) && |r.stack| > 0 && !r.rootDone && !r.finished &&
      Top(r).phase.ArrayValueOrEnd?
    ensures Keeps(FrameTurn(cfg, s, r), es, t')
  {
    hide ExpectValue, KeyTurn, CommaTurn, SkipWs, Emitted;
    t' := t;
    var q := SkipWs(s, r.pos);
    TopIs(es, r, t);
    if q < |s| && s[q] == RBRACKET {
      t' := CloseNests(r, q, EndArray, es, t);
      hide Nested;
    } else if q < |s| {
      t' := ValueNests(cfg, s, r.(pos := q), false, es, t);
      hide Nested;
    }
  }

  lemma TopIs(es: seq<Event>, r: State, t: Trees)
    requires Nested(es, r, t) && |r.stack| > 0
    ensures |t.open| == |r.stack| && TopFits(Top(r), t.open[|t.open| - 1])
  {
  }

  lemma CommaNests(s: bytes, r: State, close: byte, e: Event, next: Phase, atEnd: Code, other: Code, es: seq<Event>,
      t: Trees)
      returns (t': Trees)
    requires r.pos <= |s| && Nested(es, r, t) && |r.stack| > 0 && !r.rootDone && !r.finished
    requires if Top(r).kind.ObjectFrame? then Top(r).phase.ObjectCommaOrEnd? && e == EndObject && next == ObjectKey
             else Top(r).phase.ArrayCommaOrEnd? && e == EndArray && next == ArrayValue
    ensures Keeps(CommaTurn(s, r, close, e, next, atEnd, other), es, t')
  {
    hide SkipWs, Emitted;
    t' := t;
    var q := SkipWs(s, r.pos);
    TopIs(es, r, t);
    if q < |s| && s[q] == close {
      t' := CloseNests(r, q, e, es, t);
      hide Nested;
    }
  }

  lemma KeyNests(cfg: Config, s: bytes, r: State, es: seq<Event>, t: Trees) returns (t': Trees)
    requires r.pos <= |s| && Nested(es, r, t) && |r.stack| > 0 && !r.rootDone && !r.finished
    requires Top(r).phase.ObjectKeyOrEnd? || Top(r).phase.ObjectKey?
    ensures Keeps(KeyTurn(cfg, s, r), es, t')
  {
    hide SkipWs, Emitted, StringAt;
    t' := t;
    var q := SkipWs(s, r.pos);
    TopIs(es, r, t);
    if q < |s| && s[q] == RBRACE && Top(r).phase.ObjectKeyOrEnd? {
      t' := CloseNests(r, q, EndObject, es, t);
      hide Nested;
    } else if q < |s| && s[q] == QUOTE && StringAt(cfg.strictUtf8, s, q).Ok? {
      var k := StringAt(cfg.strictUtf8, s, q);
      t' := NamedNests(r, k.next, k.value, es, t);
      hide Nested;
    }
  }

  /** A key is pending in the innermost object. */
  lemma NamedNests(r: State, p: nat, key: bytes, es: seq<Event>, t: Trees) returns (t': Trees)
    requires Nested(es, r, t) && |r.stack| > 0 && !r.rootDone && !r.finished
    requires Top(r).phase.ObjectKeyOrEnd? || Top(r).phase.ObjectKey?
    ensures Nested(es + [MapKey(key)], r.(pos := p, stack := SetTop(r.stack, ObjectColon)), t')
  {
    TopIs(es, r, t);
    var n := |t.open| - 1;
    var below, top := t.open[..n], t.open[n];
    var named := RawObject(top.members, Some(key));
    t' := Trees(t.roots, below + [named]);
    assert below + [top] == t.open;
    EmittedTop(t.roots, below, named);
    EmittedTop(t.roots, below, top);
    assert OpenEvents(named) == OpenEvents(top) + [MapKey(key)];
    hide OpenEvents, Emitted;
    Assoc(Emitted(t.roots, below), OpenEvents(top), [MapKey(key)]);
  }

  /** A closing bracket finishes the innermost container and places it in its parent. */
  lemma CloseNests(r: State, q: nat, e: Event, es: seq<Event>, t: Trees) returns (t': Trees)
    requires Nested(es, r, t) && |r.stack| > 0 && !r.rootDone && !r.finished
    requires e == (if Top(r).kind.ObjectFrame? then EndObject else EndArray)
    requires t.open[|t.open| - 1].RawObject? ==> t.open[|t.open| - 1].pending.None?
    ensures Nested(es + [e], CloseTurn(r, q, e).state, t')
  {
    var n := |t.open| - 1;
    var below, p := t.open[..n], t.open[n];
    var v := match p case RawArray(items) => Arr(items) case RawObject(ms, _) => Obj(ms);
    var r1 := Pop(r.(pos := q + 1));
    var t1 := Trees(t.roots, below);
    assert OpenEvents(p) + [e] == Flatten(v);
    Assoc(Emitted(t.roots, below), OpenEvents(p), [e]);
    assert Nested(Emitted(t.roots, below), r1, t1);
    t' := Place(t1, v);
    PlacedNests(Emitted(t.roots, below), r1, t1, v, OpenEvents(p) + [e]);
  }

  lemma FinishedIsClosed(es: seq<Event>, r: State, t: Trees)
    requires Nested(es, r, t)
    ensures r.finished ==> t.open == []
  {
  }

  lemma {:induction false} RunNests(cfg: Config, mode: StreamMode, s: bytes, r: State, es: seq<Event>, t: Trees)
      returns (t': Trees)
    requires r.pos <= |s| && Nested(es, r, t) && !r.finished
    ensures var x := Run(cfg, mode, s, r);
      Nested(es + x.events, x.state, t') && (x.state.error.None? ==> t'.open == [])
    decreases |s| - r.pos
  {
    hide OneTurn, Nested;
    var o := OneTurn(cfg, mode, s, r);
    var t1 := TurnNests(cfg, mode, s, r, es, t);
    FinishedIsClosed(if o.Emit? then es + [o.event] else es, o.state, t1);
    match o
    case Emit(e, x) =>
      t' := RunNests(cfg, mode, s, x, es + [e], t1);
      Assoc(es, [e], Run(cfg, mode, s, x).events);
    case Halt(x) =>
      t' := t1;
      assert es + [] == es;
    case Go(x) =>
      t' := RunNests(cfg, mode, s, x, es, t1);
  }

  /**
   Any run emits the events of the trees it finished and of the containers it left open; a clean run leaves none open.
   */
  lemma RunsNest(cfg: Config, mode: StreamMode, s: bytes) returns (t: Trees)
    ensures var x := Events(cfg, mode, s); x.events == Emitted(t.roots, t.open) && (EndsCleanly(x) ==> t.open == [])
  {
    t := RunNests(cfg, mode, s, Start(cfg, s), [], Trees([], []));
    assert [] + Events(cfg, mode, s).events == Events(cfg, mode, s).events;
  }

  /** A clean run emits exactly the events of a list of trees. */
  lemma CleanRunNests(cfg: Config, mode: StreamMode, s: bytes) returns (vs: seq<Json>)
    requires EndsCleanly(Events(cfg, mode, s))
    ensures Events(cfg, mode, s).events == FlattenAll(vs)
  {
    var t := RunsNest(cfg, mode, s);
    vs := t.roots;
  }
}
