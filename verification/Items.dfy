/** StreamItems: the pointer prefix and the filter cursor over the reader. */
module Items {
  import opened Core
  import opened Pointers
  import opened StreamSpec
  import opened StreamReader
  import opened ItemsSpec
  import opened ItemsCorrect

  const ASTERISK: bytes := [STAR]

  /** How a decoded reference token filters: `*`, an array index when it is one, else a member name. */
  function Classified(t: bytes): Token {
    if t == ASTERISK then AnyToken
    else
      match DecimalIndex(t)
      case Some(n) => IndexToken(n)
      case None => KeyToken(t)
  }

  function ClassifiedAll(ts: seq<bytes>): (r: seq<Token>)
    ensures |r| == |ts| && forall i :: 0 <= i < |ts| ==> r[i] == Classified(ts[i])
  {
    seq(|ts|, i requires 0 <= i < |ts| => Classified(ts[i]))
  }

  /** parse_prefix: None when the prefix is no JSON Pointer. */
  function Prefix(s: bytes): Option<seq<Token>> {
    match ParsePointer(s)
    case None => None
    case Some(ts) => Some(ClassifiedAll(ts))
  }

  method ParsePrefix(s: bytes) returns (r: Option<seq<Token>>)
    ensures r == Prefix(s)
  {
    var ts := ParseJsonPointer(s);
    if ts.None? {
      return None;
    }
    var out: seq<Token> := [];
    for i := 0 to |ts.value|
      invariant |out| == i && forall k :: 0 <= k < i ==> out[k] == Classified(ts.value[k])
    {
      var t := ts.value[i];
      var n := ParseDecimalIndex(t);
      out := out + [if t == ASTERISK then AnyToken else if n.Some? then IndexToken(n.value) else KeyToken(t)];
    }
    assert out == ClassifiedAll(ts.value);
    r := Some(out);
  }

  class StreamItems {
    const reader: StreamReader
    const tokens: seq<Token>
    var frames: seq<PathFrame>
    var pending: int
    var emitting: bool
    var emitDepth: nat

    function State(): ItemState
      reads this
    {
      ItemState(frames, pending, emitting, emitDepth)
    }

    constructor (reader: StreamReader, tokens: seq<Token>)
      ensures this.reader == reader && this.tokens == tokens && State() == NoItems
    {
      this.reader, this.tokens := reader, tokens;
      frames, pending, emitting, emitDepth := [], -1, false, 0;
    }

    /** child_match_len. */
    method ChildMatchLen() returns (m: int)
      ensures m == ChildMatch(tokens, State())
    {
      if |frames| == 0 {
        return 0;
      }
      var parent := frames[|frames| - 1];
      var base := parent.matchLen;
      if base < 0 || base >= |tokens| {
        return -1;
      }
      var token := tokens[base];
      if parent.isObject {
        return pending;
      }
      if token.AnyToken? {
        return base + 1;
      }
      if token.IndexToken? && token.index == parent.nextIndex {
        return base + 1;
      }
      return -1;
    }

    /** on_map_key. */
    method OnMapKey(key: bytes)
      modifies `pending
      ensures pending == KeyMatch(tokens, old(State()), key)
    {
      pending := -1;
      if |frames| == 0 || !frames[|frames| - 1].isObject {
        return;
      }
      var base := frames[|frames| - 1].matchLen;
      if base < 0 || base >= |tokens| {
        return;
      }
      var token := tokens[base];
      if token.KeyToken? && key == token.key {
        pending := base + 1;
      }
    }

    method BumpTop()
      modifies `frames
      ensures frames == Bump(old(frames))
    {
      var i := |frames| - 1;
      if i >= 0 && !frames[i].isObject {
        frames := frames[i := frames[i].(nextIndex := frames[i].nextIndex + 1)];
      }
    }

    method OpenContainer(isObject: bool) returns (emit: bool)
      modifies this
      ensures Fed(emit, State()) == Begin(tokens, old(State()), isObject)
    {
      if emitting {
        frames := frames + [PathFrame(isObject, -1, 0)];
        emitDepth := emitDepth + 1;
        return true;
      }
      var m := ChildMatchLen();
      frames := frames + [PathFrame(isObject, m, 0)];
      if m == |tokens| {
        emitting := true;
        emitDepth := 1;
        return true;
      }
      return false;
    }

    method CloseContainer() returns (emit: bool)
      modifies this
      ensures Fed(emit, State()) == Finish(old(State()))
    {
      if |frames| > 0 {
        frames := frames[..|frames| - 1];
      }
      BumpTop();
      if !emitting {
        return false;
      }
      emitDepth := if emitDepth == 0 then 0 else emitDepth - 1;
      if emitDepth == 0 {
        emitting := false;
      }
      return true;
    }

    /** The switch over one reader event. */
    method Take(e: Event) returns (emit: bool)
      modifies this
      ensures Fed(emit, State()) == Feed(tokens, old(State()), e)
    {
      match e {
        case BeginObject => emit := OpenContainer(true);
        case BeginArray => emit := OpenContainer(false);
        case EndObject => emit := CloseContainer();
        case EndArray => emit := CloseContainer();
        case MapKey(k) =>
          if emitting {
            return true;
          }
          OnMapKey(k);
          emit := false;
        case Scalar(_) =>
          if emitting {
            return true;
          }
          var m := ChildMatchLen();
          BumpTop();
          pending := -1;
          emit := m == |tokens|;
      }
    }

    /** The events the reader has not delivered yet. */
    ghost function Rest(): seq<Event>
      requires reader.Valid()
      reads reader
    {
      Run(reader.cfg, reader.mode, reader.input, reader.Abstract()).events
    }

    /** next(): pull reader events until one belongs to a match. */
    method NextItem() returns (ok: bool, out: Event)
      requires reader.Valid()
      modifies this, reader
      ensures reader.Valid()
      ensures ok ==> Filter(tokens, old(State()), old(Rest())) == [out] + Filter(tokens, State(), Rest())
      ensures ok ==> reader.Abstract().pos > old(reader.Abstract().pos)
      ensures !ok ==> Filter(tokens, old(State()), old(Rest())) == []
    {
      ghost var all := Filter(tokens, State(), Rest());
      ghost var p0 := reader.Abstract().pos;
      hide Run, Next, Feed, StreamReader.WindowOk;
      out := EndArray;
      while true
        invariant reader.Valid() && all == Filter(tokens, State(), Rest())
        invariant p0 <= reader.Abstract().pos <= |reader.input|
        decreases |reader.input| - reader.Abstract().pos
      {
        ghost var r := reader.Abstract();
        RunStep(reader.cfg, reader.mode, reader.input, r);
        var e;
        ok, e := reader.NextEvent();
        if !ok {
          return;
        }
        FilterCons(tokens, State(), e,
          Run(reader.cfg, reader.mode, reader.input, Next(reader.cfg, reader.mode, reader.input, r).state).events);
        var emit := Take(e);
        if emit {
          return true, e;
        }
      }
    }

    /** Everything the cursor yields. */
    method AllItems() returns (items: seq<Event>)
      requires reader.Valid() && State() == NoItems && reader.Abstract() == Start(reader.cfg, reader.input)
      modifies this, reader
      ensures items == Filter(tokens, NoItems, Events(reader.cfg, reader.mode, reader.input).events)
    {
      items := [];
      ghost var all := Filter(tokens, State(), Rest());
      assert all == Filter(tokens, NoItems, Events(reader.cfg, reader.mode, reader.input).events);
      hide Run, Next, Feed, Filter, StreamReader.WindowOk;
      while true
        invariant reader.Valid() && all == items + Filter(tokens, State(), Rest())
        invariant reader.Abstract().pos <= |reader.input|
        decreases |reader.input| - reader.Abstract().pos
      {
        var ok, e := NextItem();
        if !ok {
          return;
        }
        items := items + [e];
      }
    }
  }
}
