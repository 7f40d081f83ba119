/**
 Values that run over the end of their line. White space is skipped past the line break, so a line that opens an array
 can be completed by the lines below it; but then the line its last bracket stands on fails on its own.
 */
module LineHops {
  import opened Core
  import opened Grammar
  import opened Strings
  import opened Json5Lexer
  import opened ParserSpec
  import opened LineCut

  // ---- past the logical end only literals, arrays and empty objects are accepted, wherever the end is ----

  lemma {:induction false} WsMoved(t: bytes, d: nat, p: nat)
    requires d + p <= |t|
    ensures SkipWs(t, d + p) == d + SkipWs(t[d..], p)
    decreases |t| - p
  {
    if d + p < |t| && IsWs(t[d + p]) { WsMoved(t, d, p + 1); }
  }

  lemma WordMoved(t: bytes, d: nat, p: nat, lit: bytes)
    requires d + p <= |t|
    ensures LiteralAt(t[d..], p, |t| - d, lit) <==> LiteralAt(t, d + p, |t|, lit)
  {
    var u := t[d..];
    if LiteralAt(t, d + p, |t|, lit) {
      forall i | 0 <= i < |lit| ensures u[p + i] == lit[i] { assert t[d + p + i] == lit[i]; }
    }
    if LiteralAt(u, p, |t| - d, lit) {
      forall i | 0 <= i < |lit| ensures t[d + p + i] == lit[i] { assert u[p + i] == lit[i]; }
    }
  }

  /** The buffer from d on, with a logical end of its own. */
  function Rest(t: bytes, d: nat, e': nat): (b: Input)
    requires d + e' <= |t|
    ensures b.buf == t[d..] && b.end == e'
  {
    Input(t[d..], e')
  }

  /** What b accepts, a accepts d bytes earlier. */
  ghost predicate Moves<T>(b: Parsed<T>, a: Parsed<T>, d: nat) {
    b.Ok? ==> a.Ok? && b == Ok(a.value, d + a.next)
  }

  lemma LiteralMoved(cfg: Config, t: bytes, e: nat, e': nat, d: nat, p: nat)
    requires d + p <= |t| && e <= |t| && d + e' <= |t|
    ensures Moves(ParseLiteral(cfg, Input(t, e), d + p), ParseLiteral(cfg, Rest(t, d, e'), p), d)
  {
    hide LiteralAt;
    WordMoved(t, d, p, TRUE);
    WordMoved(t, d, p, NULL);
    WordMoved(t, d, p, FALSE);
  }

  lemma NumberStartsInside(lib: FloatLib, t: bytes, p: nat, e: nat)
    requires e <= p <= |t| && e <= |t|
    ensures ParseNumber(lib, t, p, e).Fail?
  {
  }

  /** Where the moved parse runs: at or past the end e of the first line, with the second line's end anywhere. */
  predicate Past(t: bytes, e: nat, e': nat, d: nat, p: nat) { e <= d + p <= |t| && d + e' <= |t| }

  lemma ScalarMoved(cfg: Config, t: bytes, e: nat, e': nat, d: nat, p: nat, top: bool)
    requires !cfg.json5 && Past(t, e, e', d, p)
    ensures Moves(ParseScalar(cfg, Input(t, e), d + p, false), ParseScalar(cfg, Rest(t, d, e'), p, top), d)
  {
    hide ParseLiteral, ParseNumber;
    NumberStartsInside(cfg.lib, t, d + p, e);
    LiteralMoved(cfg, t, e, e', d, p);
  }

  lemma SeparatorMoved(cfg: Config, t: bytes, e: nat, e': nat, d: nat, p: nat)
    requires !cfg.json5 && Past(t, e, e', d, p)
    ensures Moves(ParseSeparator(cfg, Input(t, e), d + p, RBRACKET), ParseSeparator(cfg, Rest(t, d, e'), p, RBRACKET),
      d)
  {
    hide SkipWs;
    WsMoved(t, d, p);
  }

  lemma OpensMoved(cfg: Config, t: bytes, e: nat, e': nat, d: nat, p: nat, q: nat, depth: nat, depth': nat, top: bool)
    requires !cfg.json5 && Past(t, e, e', d, p) && depth' <= depth
    requires q == SkipWs(t[d..], p) && SkipWs(t, d + p) == d + q && d + q < |t| &&
      (t[d + q] == LBRACKET || t[d + q] == LBRACE)
    requires t[d + q] == LBRACKET ==>
      Moves(ParseArray(cfg, Input(t, e), d + q + 1, depth + 1), ParseArray(cfg, Rest(t, d, e'), q + 1, depth' + 1), d)
    requires t[d + q] == LBRACE ==>
      Moves(ParseObject(cfg, Input(t, e), d + q + 1, depth + 1), ParseObject(cfg, Rest(t, d, e'), q + 1, depth' + 1), d)
    ensures Moves(ParseValue(cfg, Input(t, e), d + p, depth, false), ParseValue(cfg, Rest(t, d, e'), p, depth', top), d)
  {
    hide SkipWs, ParseValue, ParseArray, ParseObject, ParseScalar, Rest;
    if t[d + q] == LBRACKET {
      ArrayOpens(cfg, Input(t, e), d + p, d + q, depth, false);
      ArrayOpens(cfg, Rest(t, d, e'), p, q, depth', top);
    } else {
      ObjectOpens(cfg, Input(t, e), d + p, d + q, depth, false);
      ObjectOpens(cfg, Rest(t, d, e'), p, q, depth', top);
    }
  }

  lemma ScalarAtMoved(cfg: Config, t: bytes, e: nat, e': nat, d: nat, p: nat, q: nat, depth: nat, depth': nat,
      top: bool)
    requires !cfg.json5 && Past(t, e, e', d, p)
    requires q == SkipWs(t[d..], p) && SkipWs(t, d + p) == d + q && At(t, d + q) != LBRACKET && At(t, d + q) != LBRACE
    ensures Moves(ParseValue(cfg, Input(t, e), d + p, depth, false), ParseValue(cfg, Rest(t, d, e'), p, depth', top), d)
  {
    hide SkipWs, ParseValue, ParseScalar, Rest;
    ScalarAt(cfg, Input(t, e), d + p, d + q, depth, false);
    ScalarAt(cfg, Rest(t, d, e'), p, q, depth', top);
    ScalarMoved(cfg, t, e, e', d, q, top);
  }

  /**
   A value accepted past the end of its line is accepted, alike, from any later line of the buffer and at any smaller
   depth.
   */
  lemma {:induction false} ValueMoved(cfg: Config, t: bytes, e: nat, e': nat, d: nat, p: nat, depth: nat, depth': nat,
      top: bool)
    requires !cfg.json5 && Past(t, e, e', d, p) && depth' <= depth
    ensures Moves(ParseValue(cfg, Input(t, e), d + p, depth, false), ParseValue(cfg, Rest(t, d, e'), p, depth', top), d)
    decreases |t| - p, 3
  {
    hide SkipWs, ParseValue, ParseArray, ParseObject, Rest, Moves;
    WsMoved(t, d, p);
    var q := SkipWs(t[d..], p);
    if At(t, d + q) == LBRACKET {
      AtInside(t, d + q);
      ArrayMoved(cfg, t, e, e', d, q + 1, depth + 1, depth' + 1);
      OpensMoved(cfg, t, e, e', d, p, q, depth, depth', top);
    } else if At(t, d + q) == LBRACE {
      AtInside(t, d + q);
      ObjectMoved(cfg, t, e, e', d, q + 1, depth + 1, depth' + 1);
      OpensMoved(cfg, t, e, e', d, p, q, depth, depth', top);
    } else {
      ScalarAtMoved(cfg, t, e, e', d, p, q, depth, depth', top);
    }
  }

  lemma AtInside(t: bytes, q: nat)
    requires At(t, q) != 0
    ensures q < |t| && t[q] == At(t, q)
  {
  }

  lemma {:induction false} ArrayMoved(cfg: Config, t: bytes, e: nat, e': nat, d: nat, p: nat, depth: nat, depth': nat)
    requires !cfg.json5 && Past(t, e, e', d, p) && depth' <= depth
    ensures Moves(ParseArray(cfg, Input(t, e), d + p, depth), ParseArray(cfg, Rest(t, d, e'), p, depth'), d)
    decreases |t| - p, 5
  {
    hide SkipWs, ParseElements;
    WsMoved(t, d, p);
    var q := SkipWs(t[d..], p);
    ElementsMoved(cfg, t, e, e', d, q, depth, depth', []);
    if d + q < |t| && t[d + q] == RBRACKET { NoValueAtBracket(cfg, Input(t, e), d + q, depth); }
  }

  lemma NoValueAtBracket(cfg: Config, b: Input, q: nat, depth: nat)
    requires !cfg.json5 && q < |b.buf| && b.buf[q] == RBRACKET
    ensures ParseElements(cfg, b, q, depth, []).Fail?
  {
    hide ParseElements, ParseValue, ParseSeparator;
    ElementsStep(cfg, b, q, depth, []);
    ScalarAt(cfg, b, q, q, depth, false);
  }

  lemma {:induction false} ElementsMoved(cfg: Config, t: bytes, e: nat, e': nat, d: nat, p: nat, depth: nat,
      depth': nat, acc: seq<Json>)
    requires !cfg.json5 && Past(t, e, e', d, p) && depth' <= depth
    ensures Moves(ParseElements(cfg, Input(t, e), d + p, depth, acc),
      ParseElements(cfg, Rest(t, d, e'), p, depth', acc), d)
    decreases |t| - p, 4
  {
    hide ParseElements, ParseValue, ParseSeparator, Rest;
    ElementsStep(cfg, Input(t, e), d + p, depth, acc);
    ElementsStep(cfg, Rest(t, d, e'), p, depth', acc);
    ValueMoved(cfg, t, e, e', d, p, depth, depth', false);
    var v := ParseValue(cfg, Rest(t, d, e'), p, depth', false);
    if v.Ok? {
      SeparatorMoved(cfg, t, e, e', d, v.next);
      var sep := ParseSeparator(cfg, Rest(t, d, e'), v.next, RBRACKET);
      if sep.Ok? && sep.value.Another? { ElementsMoved(cfg, t, e, e', d, sep.next, depth, depth', acc + [v.value]); }
    }
  }

  lemma ObjectMoved(cfg: Config, t: bytes, e: nat, e': nat, d: nat, p: nat, depth: nat, depth': nat)
    requires !cfg.json5 && Past(t, e, e', d, p)
    ensures Moves(ParseObject(cfg, Input(t, e), d + p, depth), ParseObject(cfg, Rest(t, d, e'), p, depth'), d)
  {
    hide SkipWs, ParseMembers;
    WsMoved(t, d, p);
    var q := d + SkipWs(t[d..], p);
    if At(t, q) != RBRACE && ParseMembers(cfg, Input(t, e), q, depth, []).Ok? {
      MembersInside(cfg, t, e, q, depth, []);
    }
  }

  /** A non-empty object starts and ends before the logical end. */
  lemma {:induction false} MembersInside(cfg: Config, t: bytes, e: nat, p: nat, depth: nat, ms: seq<Member>)
    requires !cfg.json5 && p <= |t| && e <= |t| && ParseMembers(cfg, Input(t, e), p, depth, ms).Ok?
    ensures p < ParseMembers(cfg, Input(t, e), p, depth, ms).next <= e
    decreases |t| - p
  {
    hide ParseMembers, ParseValue, ParseKeyColon, SkipWs;
    var b := Input(t, e);
    MembersStep(cfg, b, p, depth, ms);
    var k := ParseKeyColon(cfg, b, p, ms);
    var v := ParseValue(cfg, b, k.next, depth, false);
    var sep := ParseSeparator(cfg, b, v.next, RBRACE);
    assert sep.next <= e;
    if sep.value.Another? { MembersInside(cfg, t, e, sep.next, depth, Upsert(ms, k.value, v.value)); }
  }

  // ---- the line that holds the last bracket fails ----

  predicate IsCloser(c: byte) { c == COMMA || c == RBRACKET || c == RBRACE || c == COLON }

  /** A value accepted at x inside `depth` containers, with a closing byte behind it and before n. */
  ghost predicate ClosedValue(cfg: Config, t: bytes, e: nat, x: nat, n: nat, depth: nat)
    requires e <= |t| && x <= |t|
  {
    var r := ParseValue(cfg, Input(t, e), x, depth, false);
    r.Ok? && SkipWs(t, r.next) < n && IsCloser(At(t, SkipWs(t, r.next)))
  }

  /** A line whose first byte is the one at x cannot be a document if it reaches n. */
  ghost predicate Stuck(cfg: Config, t: bytes, e: nat, x: nat, n: nat)
    requires e <= |t| && x <= |t|
  {
    IsCloser(At(t, x)) || exists depth: nat :: ClosedValue(cfg, t, e, x, n, depth)
  }

  lemma StuckLater(cfg: Config, t: bytes, e: nat, x: nat, n: nat, m: nat)
    requires e <= |t| && x <= |t| && n <= m && Stuck(cfg, t, e, x, n)
    ensures Stuck(cfg, t, e, x, m)
  {
    if !IsCloser(At(t, x)) {
      var depth: nat :| ClosedValue(cfg, t, e, x, n, depth);
      assert ClosedValue(cfg, t, e, x, m, depth);
    }
  }

  /** x opens a line below the one that ends at e. */
  predicate Opens(t: bytes, e: nat, x: nat) { e < x < |t| && !IsWs(t[x]) && IsWs(t[x - 1]) }

  lemma {:induction false} WsStops(t: bytes, p: nat, x: nat)
    requires p <= x < |t| && !IsWs(t[x])
    ensures SkipWs(t, p) <= x
    decreases x - p
  {
    if p < x && IsWs(t[p]) { WsStops(t, p + 1, x); }
  }

  lemma LiteralSolid(cfg: Config, b: Input, q: nat, i: nat)
    requires ParseLiteral(cfg, b, q).Ok? && q <= i < ParseLiteral(cfg, b, q).next
    ensures i < |b.buf| && !IsWs(b.buf[i])
  {
    hide AfterLiteral;
    var k := i - q;
    assert k < 4 ==> TRUE[k] > 0x20 && NULL[k] > 0x20;
    assert FALSE[k] > 0x20;
  }

  /** No scalar that starts before x goes on past it. */
  lemma ScalarShort(cfg: Config, t: bytes, e: nat, q: nat, x: nat)
    requires !cfg.json5 && Breaks(t, e) && q < x && Opens(t, e, x) && ParseScalar(cfg, Input(t, e), q, false).Ok?
    ensures ParseScalar(cfg, Input(t, e), q, false).next <= x
  {
    if q < e {
      ScalarCut(cfg, t, e, q, false);
    } else {
      NumberStartsInside(cfg.lib, t, q, e);
      if ParseLiteral(cfg, Input(t, e), q).Ok? && x < ParseLiteral(cfg, Input(t, e), q).next {
        LiteralSolid(cfg, Input(t, e), q, x - 1);
      }
      hide ParseLiteral, ParseNumber;
    }
  }

  lemma {:induction false} ValueHops(cfg: Config, t: bytes, e: nat, p: nat, depth: nat, top: bool, x: nat)
    requires !cfg.json5 && Breaks(t, e) && p <= x && Opens(t, e, x) && SkipWs(t, p) < x
    requires var r := ParseValue(cfg, Input(t, e), p, depth, top); r.Ok? && x < r.next
    ensures Stuck(cfg, t, e, x, ParseValue(cfg, Input(t, e), p, depth, top).next)
    decreases |t| - p, 3
  {
    hide SkipWs, ParseValue, ParseArray, ParseObject, ParseScalar, Stuck;
    var b := Input(t, e);
    var q := SkipWs(t, p);
    if At(t, q) == LBRACKET {
      ArrayOpens(cfg, b, p, q, depth, top);
      ArrayHops(cfg, t, e, q + 1, depth + 1, x);
    } else if At(t, q) == LBRACE {
      ObjectOpens(cfg, b, p, q, depth, top);
      ObjectHops(cfg, t, e, q + 1, depth + 1, x);
    } else {
      ScalarAt(cfg, b, p, q, depth, top);
      ScalarTop(cfg, b, q, top);
      ScalarShort(cfg, t, e, q, x);
    }
  }

  lemma ScalarTop(cfg: Config, b: Input, q: nat, top: bool)
    requires q <= |b.buf| && ParseScalar(cfg, b, q, top).Ok?
    ensures ParseScalar(cfg, b, q, false) == ParseScalar(cfg, b, q, top)
  {
    hide StringToken, ParseLiteral, NumberToken, ParseString5;
  }

  lemma {:induction false} ArrayHops(cfg: Config, t: bytes, e: nat, p: nat, depth: nat, x: nat)
    requires !cfg.json5 && Breaks(t, e) && p <= x && Opens(t, e, x)
    requires var r := ParseArray(cfg, Input(t, e), p, depth); r.Ok? && x < r.next
    ensures Stuck(cfg, t, e, x, ParseArray(cfg, Input(t, e), p, depth).next)
    decreases |t| - p, 5
  {
    hide SkipWs, ParseElements, Stuck;
    WsStops(t, p, x);
    ElementsHop(cfg, t, e, SkipWs(t, p), depth, [], x);
  }

  lemma {:induction false} ElementsHop(cfg: Config, t: bytes, e: nat, p: nat, depth: nat, acc: seq<Json>, x: nat)
    requires !cfg.json5 && Breaks(t, e) && p <= x && Opens(t, e, x)
    requires var r := ParseElements(cfg, Input(t, e), p, depth, acc); r.Ok? && x < r.next
    ensures Stuck(cfg, t, e, x, ParseElements(cfg, Input(t, e), p, depth, acc).next)
    decreases |t| - p, 4
  {
    hide SkipWs, ParseElements, ParseValue, ParseSeparator, Stuck, ClosedValue;
    var b := Input(t, e);
    ElementsStep(cfg, b, p, depth, acc);
    WsStops(t, p, x);
    var v := ParseValue(cfg, b, p, depth, false);
    var sep := ParseSeparator(cfg, b, v.next, RBRACKET);
    SeparatorIs(cfg, b, v.next);
    var end := ParseElements(cfg, b, p, depth, acc).next;
    if SkipWs(t, p) == x {
      ValueCloses(cfg, t, e, p, depth, x, end);
    } else if x < v.next {
      ValueHops(cfg, t, e, p, depth, false, x);
      StuckLater(cfg, t, e, x, v.next, end);
    } else {
      WsStops(t, v.next, x);
      if SkipWs(t, v.next) == x {
        ByteStuck(cfg, t, e, x, end);
      } else {
        ElementsHop(cfg, t, e, sep.next, depth, acc + [v.value], x);
      }
    }
  }

  lemma SeparatorIs(cfg: Config, b: Input, p: nat)
    requires !cfg.json5 && p <= |b.buf| && ParseSeparator(cfg, b, p, RBRACKET).Ok?
    ensures var r := ParseSeparator(cfg, b, p, RBRACKET);
      IsCloser(At(b.buf, SkipWs(b.buf, p))) && r.next == SkipWs(b.buf, p) + 1
  {
  }

  lemma ByteStuck(cfg: Config, t: bytes, e: nat, x: nat, n: nat)
    requires e <= |t| && x <= |t| && IsCloser(At(t, x))
    ensures Stuck(cfg, t, e, x, n)
  {
  }

  /** A value does not depend on the white space before it. */
  lemma ValueFrom(cfg: Config, b: Input, p: nat, depth: nat, top: bool)
    requires !cfg.json5 && p <= |b.buf|
    ensures ParseValue(cfg, b, SkipWs(b.buf, p), depth, top) == ParseValue(cfg, b, p, depth, top)
  {
    hide ParseArray, ParseObject, ParseScalar, SkipWs;
    assert SkipWs(b.buf, SkipWs(b.buf, p)) == SkipWs(b.buf, p);
  }

  lemma ValueCloses(cfg: Config, t: bytes, e: nat, p: nat, depth: nat, x: nat, n: nat)
    requires !cfg.json5 && e <= |t| && p <= |t| && SkipWs(t, p) == x
    requires var v := ParseValue(cfg, Input(t, e), p, depth, false);
      v.Ok? && SkipWs(t, v.next) < n && IsCloser(At(t, SkipWs(t, v.next)))
    ensures Stuck(cfg, t, e, x, n)
  {
    hide ParseValue;
    ValueFrom(cfg, Input(t, e), p, depth, false);
    assert ClosedValue(cfg, t, e, x, n, depth);
  }

  lemma ObjectHops(cfg: Config, t: bytes, e: nat, p: nat, depth: nat, x: nat)
    requires !cfg.json5 && Breaks(t, e) && p <= x && Opens(t, e, x)
    requires var r := ParseObject(cfg, Input(t, e), p, depth); r.Ok? && x < r.next
    ensures Stuck(cfg, t, e, x, ParseObject(cfg, Input(t, e), p, depth).next)
  {
    hide SkipWs, ParseMembers, ClosedValue;
    WsStops(t, p, x);
    var q := SkipWs(t, p);
    if At(t, q) != RBRACE { MembersInside(cfg, t, e, q, depth, []); }
  }

  // ---- a value that runs over ends in a bracket ----

  lemma {:induction false} ElementsEnd(cfg: Config, b: Input, p: nat, depth: nat, acc: seq<Json>)
    requires !cfg.json5 && p <= |b.buf| && ParseElements(cfg, b, p, depth, acc).Ok?
    ensures b.buf[ParseElements(cfg, b, p, depth, acc).next - 1] == RBRACKET
    decreases |b.buf| - p
  {
    hide ParseElements, ParseValue, SkipWs;
    ElementsStep(cfg, b, p, depth, acc);
    var v := ParseValue(cfg, b, p, depth, false);
    var sep := ParseSeparator(cfg, b, v.next, RBRACKET);
    if sep.value.Another? { ElementsEnd(cfg, b, sep.next, depth, acc + [v.value]); }
  }

  lemma ContainerEnd(cfg: Config, t: bytes, e: nat, p: nat)
    requires !cfg.json5 && Breaks(t, e) && p <= |t|
    ensures var r := ParseArray(cfg, Input(t, e), p, 1); r.Ok? ==> t[r.next - 1] == RBRACKET
    ensures var r := ParseObject(cfg, Input(t, e), p, 1); r.Ok? && e < r.next ==> t[r.next - 1] == RBRACE
  {
    hide SkipWs, ParseElements, ParseMembers;
    var b := Input(t, e);
    var a := SkipWs(t, p);
    if !Closes(b, a, RBRACKET) && ParseElements(cfg, b, a, 1, []).Ok? { ElementsEnd(cfg, b, a, 1, []); }
    if At(t, a) != RBRACE && ParseMembers(cfg, b, a, 1, []).Ok? { MembersInside(cfg, t, e, a, 1, []); }
  }

  lemma OverrunEnd(cfg: Config, t: bytes, e: nat, p: nat, top: bool)
    requires !cfg.json5 && Breaks(t, e) && p <= e && SkipWs(t, p) < e
    requires var r := ParseValue(cfg, Input(t, e), p, 0, top); r.Ok? && e < r.next
    ensures var r := ParseValue(cfg, Input(t, e), p, 0, top); !IsWs(t[r.next - 1])
  {
    hide SkipWs, ParseValue, ParseArray, ParseObject, ParseScalar;
    var b := Input(t, e);
    var q := SkipWs(t, p);
    ContainerEnd(cfg, t, e, q + 1);
    if At(t, q) == LBRACKET {
      ArrayOpens(cfg, b, p, q, 0, top);
    } else if At(t, q) == LBRACE {
      ObjectOpens(cfg, b, p, q, 0, top);
    } else {
      ScalarAt(cfg, b, p, q, 0, top);
      ScalarCut(cfg, t, e, q, top);
    }
  }
}
