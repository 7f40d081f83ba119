/**
 The events of a stream against the values of its text: a reader in MultiValue mode delivers the values the parser
 reads one after another, and the filter selects from them.
 */
module StreamValues {
  import opened Core
  import opened Grammar
  import opened ParserSpec
  import opened StreamSpec
  import opened StreamAgreement
  import opened ItemsSpec
  import opened ItemsCorrect
  import opened EventsNest

  // ---- the values of a text ----

  /** Values read one after another, and what stopped the reading. */
  datatype Series = Series(values: seq<Json>, error: Option<Error>)

  /** The parser run again behind each value; a value is followed by white space or by the end of the text. */
  function ParseSeries(cfg: Config, s: bytes, p: nat): Series
    requires p <= |s|
    decreases |s| - p
  {
    var q := SkipWs(s, p);
    if q == |s| then Series([], None)
    else
      match ParseValue(cfg, Whole(s), q, 0, true)
      case Fail(e) => Series([], Some(e))
      case Ok(v, n) =>
        if n < |s| && !IsWs(s[n]) then Series([v], Some(Positioned(ExtraCharactersAfterValue, n)))
        else
          var rest := ParseSeries(cfg, s, n);
          Series([v] + rest.values, rest.error)
  }

  function TextSeries(cfg: Config, s: bytes): Series { ParseSeries(cfg, s, SkipBom(cfg, Whole(s))) }

  /** The first token refused behind p is a split string. */
  predicate SplitSeries(cfg: Config, s: bytes, p: nat)
    requires p <= |s|
    decreases |s| - p
  {
    var q := SkipWs(s, p);
    && q < |s|
    && match ParseValue(cfg, Whole(s), q, 0, true)
       case Fail(_) => SplitValue(cfg, s, q, 0)
       case Ok(_, n) => (n == |s| || IsWs(s[n])) && SplitSeries(cfg, s, n)
  }

  /** The same behind a value. */
  predicate SplitBehind(cfg: Config, s: bytes, n: nat)
    requires n <= |s|
  {
    (n == |s| || IsWs(s[n])) && SplitSeries(cfg, s, n)
  }

  lemma SkippedSeries(cfg: Config, s: bytes, p: nat)
    requires p <= |s|
    ensures ParseSeries(cfg, s, SkipWs(s, p)) == ParseSeries(cfg, s, p)
    ensures SplitSeries(cfg, s, SkipWs(s, p)) == SplitSeries(cfg, s, p)
  {
    hide ParseValue, SplitValue;
    assert SkipWs(s, SkipWs(s, p)) == SkipWs(s, p);
  }

  /** The run gave these values and stopped for this reason. */
  ghost predicate Delivers(got: (Builder, State), b: Builder, d: Series, split: bool) {
    && got.0.roots == b.roots + d.values
    && match d.error
       case None => got.1.error.None? && got.0.open == []
       case Some(e) => Stops(got.1, e, split)
  }

  /** Between two top-level values. */
  predicate Between(r: State, b: Builder) { Live(r) && r.stack == [] && b.open == [] }

  lemma {:induction false} SeriesFollows(cfg: Config, s: bytes, r: State, b: Builder)
    requires Rfc(cfg) && Between(r, b) && r.pos <= |s|
    ensures Delivers(Trace(cfg, MultiValue, s, r, b), b, ParseSeries(cfg, s, r.pos), SplitSeries(cfg, s, r.pos))
    decreases |s| - r.pos
  {
    hide ParseValue, ExpectValue, Trace, Stops, SplitValue;
    TraceTurn(cfg, MultiValue, s, r, b);
    var q := SkipWs(s, r.pos);
    if q == |s| {
      assert b.roots + [] == b.roots;
    } else {
      var x := r.(pos := q);
      assert SkipWs(s, q) == q;
      ValueFollows(cfg, MultiValue, s, x, true, b);
      var pv := ParseValue(cfg, Whole(s), q, 0, true);
      if pv.Ok? {
        assert Complete(x.(pos := pv.next)) == r.(pos := pv.next, rootDone := true);
        BehindValue(cfg, s, r.(pos := pv.next), Put(b, pv.value));
        assert b.roots + [pv.value] + ParseSeries(cfg, s, pv.next).values ==
          b.roots + ([pv.value] + ParseSeries(cfg, s, pv.next).values);
      } else {
        assert b.roots + [] == b.roots;
      }
    }
  }

  /** Behind a top-level value: the end of the text, the next value, or a byte that does not belong there. */
  lemma {:induction false} BehindValue(cfg: Config, s: bytes, r: State, b: Builder)
    requires Rfc(cfg) && Between(r, b) && r.pos <= |s|
    ensures var d := if r.pos < |s| && !IsWs(s[r.pos]) then
      Series([], Some(Positioned(ExtraCharactersAfterValue, r.pos)))
                     else ParseSeries(cfg, s, r.pos);
      Delivers(Trace(cfg, MultiValue, s, r.(rootDone := true), b), b, d, SplitBehind(cfg, s, r.pos))
    decreases |s| - r.pos
  {
    hide ParseValue, ExpectValue, Trace;
    var x, q := r.(rootDone := true), SkipWs(s, r.pos);
    TraceTurn(cfg, MultiValue, s, x, b);
    assert b.roots + [] == b.roots;
    if (r.pos == |s| || IsWs(s[r.pos])) && q < |s| {
      SkippedSeries(cfg, s, r.pos);
      SeriesFollows(cfg, s, r.(pos := q), b);
    }
  }

  /**
   A MultiValue reader ends cleanly on exactly the texts that are values one after another, and folding its events gives
   the values the parser reads; on any other text it delivers the values before the failure, and reports the parser's
   error if and only if the first token refused is no split string.
   */
  lemma MultiReaderAgreesWithParser(cfg: Config, s: bytes)
    requires Rfc(cfg)
    ensures var x := Events(cfg, MultiValue, s); var d := TextSeries(cfg, s);
      && Fold(NoValue, x.events).roots == d.values
      && (EndsCleanly(x) <==> d.error.None?)
      && (d.error.Some? ==> (x.state.error == d.error <==> !SplitSeries(cfg, s, SkipBom(cfg, Whole(s)))))
  {
    hide ParseSeries, Trace, Run, Fold, SplitSeries;
    var r := Start(cfg, s);
    TraceFolds(cfg, MultiValue, s, r, NoValue);
    SeriesFollows(cfg, s, r, NoValue);
    assert NoValue.roots + TextSeries(cfg, s).values == TextSeries(cfg, s).values;
  }

  // ---- the trees the events encode ----

  /** The tree with the members of every object inserted last-wins. */
  function Merged(v: Json): Json
    decreases v, 1, 0
  {
    match v
    case Arr(_) => Arr(MergedItems(v, 0))
    case Obj(_) => Obj(MergedMembers(v, 0, []))
    case _ => v
  }

  function MergedItems(v: Json, k: nat): seq<Json>
    requires v.Arr? && k <= |v.items|
    decreases v, 0, |v.items| - k
  {
    if k == |v.items| then [] else [Merged(v.items[k])] + MergedItems(v, k + 1)
  }

  function MergedMembers(v: Json, k: nat, acc: seq<Member>): seq<Member>
    requires v.Obj? && k <= |v.members|
    decreases v, 0, |v.members| - k
  {
    if k == |v.members| then acc
    else MergedMembers(v, k + 1, Upsert(acc, v.members[k].key, Merged(v.members[k].value)))
  }

  function MergedAll(vs: seq<Json>): seq<Json> {
    if |vs| == 0 then [] else [Merged(vs[0])] + MergedAll(vs[1..])
  }

  lemma FoldCons(b: Builder, e: Event, rest: seq<Event>)
    ensures Fold(b, [e] + rest) == Fold(Consume(b, e), rest)
  {
    assert ([e] + rest)[0] == e && ([e] + rest)[1..] == rest;
  }

  /** The builder inside an array that has received these elements. */
  lemma {:induction false} FoldItems(b: Builder, v: Json, k: nat, acc: seq<Json>, rest: seq<Event>)
    requires v.Arr? && k <= |v.items|
    ensures Fold(Opened(b, PartialArray(acc)), FlattenItems(v, k) + rest)
         == Fold(Opened(b, PartialArray(acc + MergedItems(v, k))), rest)
    decreases v, 0, |v.items| - k
  {
    hide Fold, Flatten, Merged, Put, Opened;
    if k == |v.items| {
      assert FlattenItems(v, k) + rest == rest && acc + MergedItems(v, k) == acc;
    } else {
      var w, more := v.items[k], FlattenItems(v, k + 1);
      Assoc(Flatten(w), more, rest);
      FoldValue(Opened(b, PartialArray(acc)), w, more + rest);
      ArrayLaws(b, acc, Merged(w));
      FoldItems(b, v, k + 1, acc + [Merged(w)], rest);
      Assoc(acc, [Merged(w)], MergedItems(v, k + 1));
    }
  }

  /** The builder inside an object that has received these members, whatever key it took last. */
  lemma {:induction false} FoldMembers(b: Builder, v: Json, k: nat, acc: seq<Member>, key: bytes, rest: seq<Event>)
      returns (last: bytes)
    requires v.Obj? && k <= |v.members|
    ensures Fold(Opened(b, PartialObject(acc, key)), FlattenMembers(v, k) + rest)
         == Fold(Opened(b, PartialObject(MergedMembers(v, k, acc), last)), rest)
    decreases v, 0, |v.members| - k
  {
    hide Fold, Flatten, Merged, Put, Opened, Upsert, Consume;
    if k == |v.members| {
      assert FlattenMembers(v, k) + rest == rest;
      last := key;
    } else {
      var m, more := v.members[k], FlattenMembers(v, k + 1);
      Assoc([MapKey(m.key)] + Flatten(m.value), more, rest);
      Assoc([MapKey(m.key)], Flatten(m.value), more + rest);
      FoldCons(Opened(b, PartialObject(acc, key)), MapKey(m.key), Flatten(m.value) + (more + rest));
      ObjectLaws(b, acc, key, m.key, Null);
      FoldValue(Opened(b, PartialObject(acc, m.key)), m.value, more + rest);
      ObjectLaws(b, acc, m.key, m.key, Merged(m.value));
      last := FoldMembers(b, v, k + 1, Upsert(acc, m.key, Merged(m.value)), m.key, rest);
    }
  }

  /** Folding the events of a tree puts the merged tree in place. */
  lemma {:induction false} FoldValue(b: Builder, v: Json, rest: seq<Event>)
    ensures Fold(b, Flatten(v) + rest) == Fold(Put(b, Merged(v)), rest)
    decreases v, 1, 0
  {
    hide Fold, Put, FlattenItems, FlattenMembers, MergedItems, MergedMembers;
    match v
    case Arr(items) =>
      Assoc([BeginArray] + FlattenItems(v, 0), [EndArray], rest);
      Assoc([BeginArray], FlattenItems(v, 0), [EndArray] + rest);
      FoldCons(b, BeginArray, FlattenItems(v, 0) + ([EndArray] + rest));
      FoldItems(b, v, 0, [], [EndArray] + rest);
      assert [] + MergedItems(v, 0) == MergedItems(v, 0);
      FoldCons(Opened(b, PartialArray(MergedItems(v, 0))), EndArray, rest);
      ArrayLaws(b, MergedItems(v, 0), Null);
      hide Close;
    case Obj(ms) =>
      Assoc([BeginObject] + FlattenMembers(v, 0), [EndObject], rest);
      Assoc([BeginObject], FlattenMembers(v, 0), [EndObject] + rest);
      FoldCons(b, BeginObject, FlattenMembers(v, 0) + ([EndObject] + rest));
      var last := FoldMembers(b, v, 0, [], [], [EndObject] + rest);
      FoldCons(Opened(b, PartialObject(MergedMembers(v, 0, []), last)), EndObject, rest);
      ObjectLaws(b, MergedMembers(v, 0, []), last, last, Null);
      hide Close;
    case _ =>
      FoldCons(b, Scalar(v), rest);
  }

  lemma {:induction false} FoldAll(b: Builder, vs: seq<Json>, rest: seq<Event>)
    requires b.open == []
    ensures Fold(b, FlattenAll(vs) + rest) == Fold(b.(roots := b.roots + MergedAll(vs)), rest)
    decreases |vs|
  {
    hide Fold, Flatten, Merged;
    if |vs| == 0 {
      assert FlattenAll(vs) + rest == rest && b.roots + MergedAll(vs) == b.roots;
    } else {
      Assoc(Flatten(vs[0]), FlattenAll(vs[1..]), rest);
      FoldValue(b, vs[0], FlattenAll(vs[1..]) + rest);
      FoldAll(b.(roots := b.roots + [Merged(vs[0])]), vs[1..], rest);
      Assoc(b.roots, [Merged(vs[0])], MergedAll(vs[1..]));
    }
  }

  // ---- containers left open ----

  lemma {:induction false} EmittedSplit(roots: seq<Json>, open: seq<Raw>)
    ensures Emitted(roots, open) == FlattenAll(roots) + Emitted([], open)
    decreases |open|
  {
    hide OpenEvents, Flatten;
    if |open| == 0 {
      assert FlattenAll(roots) + FlattenAll([]) == FlattenAll(roots);
    } else {
      EmittedSplit(roots, open[..|open| - 1]);
      Assoc(FlattenAll(roots), Emitted([], open[..|open| - 1]), OpenEvents(open[|open| - 1]));
    }
  }

  lemma {:induction false} FoldSplit(b: Builder, x: seq<Event>, y: seq<Event>)
    ensures Fold(b, x + y) == Fold(Fold(b, x), y)
    decreases |x|
  {
    hide Consume;
    if |x| == 0 {
      assert x + y == y;
    } else {
      assert (x + y)[1..] == x[1..] + y;
      FoldSplit(Consume(b, x[0]), x[1..], y);
    }
  }

  lemma FoldOpenTop(b: Builder, p: Raw)
    ensures Fold(b, OpenEvents(p)).roots == b.roots
  {
    hide Fold, FlattenItems, FlattenMembers, MergedItems, MergedMembers;
    var none: seq<Event> := [];
    FoldNothing();
    match p
    case RawArray(items) =>
      var body := FlattenItems(Arr(items), 0);
      FoldCons(b, BeginArray, body);
      assert body + none == body;
      FoldItems(b, Arr(items), 0, [], none);
    case RawObject(ms, k) =>
      var body := FlattenMembers(Obj(ms), 0);
      var tail := if k.Some? then [MapKey(k.value)] else none;
      assert OpenEvents(p) == [BeginObject] + (body + tail);
      FoldCons(b, BeginObject, body + tail);
      var last := FoldMembers(b, Obj(ms), 0, [], [], tail);
      if k.Some? {
        assert tail == [MapKey(k.value)] + none;
        FoldCons(Opened(b, PartialObject(MergedMembers(Obj(ms), 0, []), last)), MapKey(k.value), none);
        ObjectLaws(b, MergedMembers(Obj(ms), 0, []), last, k.value, Null);
      }
  }

  lemma FoldNothing()
    ensures forall b: Builder :: Fold(b, []) == b
  {
  }

  /** An open container completes no top-level value. */
  lemma {:induction false} FoldOpen(b: Builder, open: seq<Raw>)
    ensures Fold(b, Emitted([], open)).roots == b.roots
    decreases |open|
  {
    hide Fold, OpenEvents;
    FoldNothing();
    if |open| > 0 {
      var below, top := open[..|open| - 1], open[|open| - 1];
      FoldOpen(b, below);
      FoldSplit(b, Emitted([], below), OpenEvents(top));
      FoldOpenTop(Fold(b, Emitted([], below)), top);
    }
  }

  /** The top-level values a fold gives are the merged trees the events finished. */
  lemma EmittedRoots(t: Trees)
    ensures Fold(NoValue, Emitted(t.roots, t.open)).roots == MergedAll(t.roots)
  {
    hide Fold, Emitted, FlattenAll, MergedAll;
    EmittedSplit(t.roots, t.open);
    FoldAll(NoValue, t.roots, Emitted([], t.open));
    assert NoValue.roots + MergedAll(t.roots) == MergedAll(t.roots);
    FoldOpen(NoValue.(roots := NoValue.roots + MergedAll(t.roots)), t.open);
  }

  // ---- the filter over a stream ----

  /** The values of the text in this mode: one document, or one value after another. */
  function TextValues(cfg: Config, mode: StreamMode, s: bytes): seq<Json> {
    if mode.MultiValue? then TextSeries(cfg, s).values
    else
      match ParseDocument(cfg, Whole(s))
      case Ok(v, _) => [v]
      case Fail(_) => []
  }

  /**
   Over any stream the events are those of the trees vs, finished, and of the containers left open. The filter yields
   what the prefix selects from vs, and on a stream that fails midway more only as far as it would also yield it if the
   stream went on. In MultiValue mode, and on a clean SingleRoot stream, the trees merge to the values the parser reads.
   */
  lemma FilteredStream(ts: seq<Token>, cfg: Config, mode: StreamMode, s: bytes) returns (vs: seq<Json>)
    ensures var x := Events(cfg, mode, s); var got := Filter(ts, NoItems, x.events);
      && FlattenAll(vs) <= x.events && SelectAll(ts, vs) <= got
      && (EndsCleanly(x) ==> x.events == FlattenAll(vs) && got == SelectAll(ts, vs))
      && (Rfc(cfg) && (mode.MultiValue? || EndsCleanly(x)) ==> MergedAll(vs) == TextValues(cfg, mode, s))
    ensures forall more, ws :: Events(cfg, mode, s).events + more == FlattenAll(ws) ==>
      Filter(ts, NoItems, Events(cfg, mode, s).events) <= SelectAll(ts, ws)
  {
    hide Fold, FlattenAll, SelectAll, Filter, Run, ParseSeries, MergedAll, ParseValue, SplitSeries, SplitText;
    var x := Events(cfg, mode, s);
    var t := RunsNest(cfg, mode, s);
    vs := t.roots;
    EmittedSplit(t.roots, t.open);
    FilterSelects(ts, NoItems, vs);
    FilterPrefix(ts, NoItems, FlattenAll(vs), Emitted([], t.open));
    if EndsCleanly(x) { assert Emitted(t.roots, t.open) == FlattenAll(vs); }
    EmittedRoots(t);
    if Rfc(cfg) {
      if mode.MultiValue? { MultiReaderAgreesWithParser(cfg, s); } else { ReaderAgreesWithParser(cfg, s); }
    }
    forall more, ws | x.events + more == FlattenAll(ws) ensures Filter(ts, NoItems, x.events) <= SelectAll(ts, ws) {
      FilterPrefix(ts, NoItems, x.events, more);
      FilterSelects(ts, NoItems, ws);
    }
  }
}
