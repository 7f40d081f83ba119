/** Parsing undoes dumping, and the two agree on which nesting depths are legal. */
module DumpRoundTrip {
  import opened Core
  import opened Grammar
  import opened Utf8
  import opened Strings
  import opened Numbers
  import opened StringWriter
  import opened StringRoundTrip
  import opened Json5Lexer
  import opened ParserSpec
  import opened ByteOrder
  import opened DumpSpec

  // ---- doubles ----

  lemma NoPointAllDigits(t: bytes, i: nat, j: nat, k: nat)
    requires IsNumberSplit(t, 0, i, j, k, |t|)
    ensures HasPoint(t) <==> j < |t|
  {
    if j < |t| {
      assert IsPoint(t[j]);
    } else {
      forall x | 0 <= x < |t| ensures !IsPoint(t[x]) {
        assert x < i || IsDigit(t[x]);
      }
    }
  }

  lemma DigitsShift(t: bytes, a: nat, b: nat, s: bytes, p: nat)
    requires b <= |t| && MatchAt(s, p, t)
    ensures DigitsIn(s, p + a, p + b) <==> DigitsIn(t, a, b)
  {
    forall k | a <= k < b ensures s[p + k] == t[k] {
    }
    if DigitsIn(t, a, b) {
      forall k | p + a <= k < p + b ensures IsDigit(s[k]) { assert s[p + (k - p)] == t[k - p]; }
    }
    if DigitsIn(s, p + a, p + b) {
      forall k | a <= k < b ensures IsDigit(t[k]) { assert s[p + k] == t[k]; }
    }
  }

  lemma SplitShift(t: bytes, i: nat, j: nat, k: nat, s: bytes, p: nat)
    requires IsNumberSplit(t, 0, i, j, k, |t|) && MatchAt(s, p, t)
    ensures IsNumberSplit(s, p, p + i, p + j, p + k, p + |t|)
  {
    assert forall x {:trigger t[x]} :: 0 <= x < |t| ==> s[p + x] == t[x];
    assert s[p + i] == t[i];
    if i > 0 { assert s[p + 0] == t[0]; }
    DigitsShift(t, i, j, s, p);
    if j < k { DigitsShift(t, j + 1, k, s, p); assert s[p + j] == t[j]; }
    if k < |t| {
      assert s[p + k] == t[k];
      DigitsShift(t, k + 1, |t|, s, p);
      if k + 2 < |t| { DigitsShift(t, k + 2, |t|, s, p); assert s[p + (k + 1)] == t[k + 1]; }
    }
  }

  /** The emitted text of a finite double is a number token with a fraction or an exponent. */
  lemma DoubleTextIsToken(lib: FloatLib, d: Double) returns (i: nat, j: nat, k: nat)
    requires FloatsRoundTrip(lib) && IsFinite(d)
    ensures var t := DoubleText(lib, d); IsNumberSplit(t, 0, i, j, k, |t|) && j < |t|
  {
    var r := lib.toChars(d);
    i, j, k :| IsNumberSplit(r, 0, i, j, k, |r|);
    NoPointAllDigits(r, i, j, k);
    if !HasPoint(r) {
      var t := r + [DOT, 0x30];
      assert DigitsIn(t, i, j) && t[j] == DOT && DigitsIn(t, j + 1, j + 2);
      k := |t|;
    }
  }

  lemma MatchSlice(s: bytes, x: nat, t: bytes)
    requires MatchAt(s, x, t)
    ensures s[x..x + |t|] == t
  {
    forall i | 0 <= i < |t| ensures s[x..x + |t|][i] == t[i] { assert s[x + i] == t[i]; }
  }

  lemma FloatTokenParses(lib: FloatLib, s: bytes, p: nat, q: nat, e: nat, i: nat, j: nat, k: nat, d: Double)
    requires IsNumberSplit(s, p, i, j, k, q) && j < q <= e <= |s| && !Prolongs(s, q, e)
    requires lib.fromChars(s[p..q]) == InRange(d)
    ensures ParseNumber(lib, s, p, e) == Ok(Float(d), q) && StartsNumber(s[p])
  {
    assert IsDigit(s[i]);
    ScanIntComplete(s, i, j, k, q, e, i > p);
  }

  lemma DoubleParses(cfg: Config, d: Double, b: Input, p: nat)
    requires !cfg.json5 && FloatsRoundTrip(cfg.lib) && IsFinite(d)
    requires var t := DoubleText(cfg.lib, d);
      MatchAt(b.buf, p, t) && p + |t| <= b.end && !Prolongs(b.buf, p + |t|, b.end)
    ensures var t := DoubleText(cfg.lib, d);
      ParseNumber(cfg.lib, b.buf, p, b.end) == Ok(Float(d), p + |t|) && |t| > 0 && StartsNumber(b.buf[p])
  {
    var t, s := DoubleText(cfg.lib, d), b.buf;
    var i, j, k := DoubleTextIsToken(cfg.lib, d);
    assert cfg.lib.fromChars(t) == InRange(d);
    hide FloatsRoundTrip, DoubleText, ParseNumber;
    SplitShift(t, i, j, k, s, p);
    MatchSlice(s, p, t);
    FloatTokenParses(cfg.lib, s, p, p + |t|, b.end, p + i, p + j, p + k, d);
  }

  lemma IntParses(cfg: Config, v: int64, b: Input, p: nat)
    requires !cfg.json5
    requires var t := IntText(v); MatchAt(b.buf, p, t) && p + |t| <= b.end && !Prolongs(b.buf, p + |t|, b.end)
    ensures ParseNumber(cfg.lib, b.buf, p, b.end) == Ok(Int(v), p + |IntText(v)|) && StartsNumber(b.buf[p])
  {
    IntTextClassifies(cfg.lib, b.buf, p, b.end, v);
    IntTextShape(v);
    assert b.buf[p + 0] == IntText(v)[0];
  }

  // ---- layout ----

  /** What follows a written value: the end, a comma, a closing bracket or the newline of the next indentation. */
  predicate Delimited(s: bytes, q: nat) {
    q <= |s| && (q == |s| || s[q] == COMMA || s[q] == RBRACKET || s[q] == RBRACE || s[q] == LF)
  }

  lemma {:induction false} SkipsRun(s: bytes, p: nat, q: nat)
    requires p <= q <= |s| && forall i :: p <= i < q ==> IsWs(s[i])
    requires !IsWs(At(s, q))
    ensures SkipWs(s, p) == q
    decreases q - p
  {
    if p < q { SkipsRun(s, p + 1, q); }
  }

  /** Indentation is white space, and nothing but white space. */
  lemma SkipsIndent(o: DumpOptions, depth: nat, s: bytes, p: nat)
    requires !BadIndent(o) && MatchAt(s, p, Indent(o, depth)) && !IsWs(At(s, p + |Indent(o, depth)|))
    ensures SkipWs(s, p) == p + |Indent(o, depth)|
  {
    var t := Indent(o, depth);
    forall i | p <= i < p + |t| ensures IsWs(s[i]) {
      assert s[p + (i - p)] == t[i - p];
    }
    SkipsRun(s, p, p + |t|);
  }

  lemma MatchThen(s: bytes, p: nat, a: Written, b: Written)
    requires Then(a, b).Text? && MatchAt(s, p, Then(a, b).t)
    ensures MatchAt(s, p, a.t) && MatchAt(s, p + |a.t|, b.t)
  {
    MatchConcat(s, p, a.t, b.t);
  }

  lemma MatchByte(s: bytes, p: nat, c: byte)
    requires MatchAt(s, p, [c])
    ensures p < |s| && s[p] == c
  {
    assert s[p + 0] == [c][0];
  }

  // ---- scalars ----

  /** The strings of a tree are well-formed UTF-8 where the parser will check them. */
  ghost predicate Readable(strict: bool, v: Json) {
    match v
    case Str(s) => strict ==> WellFormed(s)
    case Arr(items) => forall i :: 0 <= i < |items| ==> Readable(strict, items[i])
    case Obj(ms) => forall i :: 0 <= i < |ms| ==> (strict ==> WellFormed(ms[i].key)) && Readable(strict, ms[i].value)
    case _ => true
  }

  lemma LiteralParses(cfg: Config, b: Input, p: nat, v: Json, t: bytes)
    requires !cfg.json5 && MatchAt(b.buf, p, t) && Delimited(b.buf, p + |t|)
    requires (v == Null && t == NULL) || (v == Bool(true) && t == TRUE) || (v == Bool(false) && t == FALSE)
    ensures ParseLiteral(cfg, b, p) == Ok(v, p + |t|) && StartsLiteral(b.buf[p])
  {
    var s := b.buf;
    assert s[p + 0] == t[0] && s[p + 1] == t[1] && s[p + 2] == t[2] && s[p + 3] == t[3];
    LiteralFirst(s, p, |s|, TRUE);
    LiteralFirst(s, p, |s|, NULL);
    assert LiteralAt(s, p, |s|, t);
  }

  ghost predicate RoundTrips(cfg: Config, o: DumpOptions) {
    !cfg.json5 && FloatsRoundTrip(cfg.lib) && !BadIndent(o)
  }

  lemma ScalarParses(o: DumpOptions, cfg: Config, v: Json, depth: nat, s: bytes, p: nat, top: bool)
    requires RoundTrips(cfg, o) && !v.Arr? && !v.Obj? && Readable(cfg.strictUtf8, v)
    requires WriteValue(o, 0, cfg.lib, v, depth).Text?
    requires var t := WriteValue(o, 0, cfg.lib, v, depth).t; MatchAt(s, p, t) && Delimited(s, p + |t|)
    ensures var t := WriteValue(o, 0, cfg.lib, v, depth).t;
      && |t| > 0 && !IsWs(s[p]) && s[p] != LBRACE && s[p] != LBRACKET && s[p] != RBRACKET && s[p] != RBRACE
      && ParseScalar(cfg, Whole(s), p, top) == Ok(v, p + |t|)
  {
    hide ParseString, ParseNumber, ParseLiteral, Escaped, AsciiEscaped, DoubleText, IntText, FloatsRoundTrip;
    var b := Whole(s);
    match v
    case Null => LiteralParses(cfg, b, p, v, NULL);
    case Bool(x) => LiteralParses(cfg, b, p, v, if x then TRUE else FALSE);
    case Int(i) => IntParses(cfg, i, b, p);
    case Float(d) => DoubleParses(cfg, d, b, p);
    case Str(x) =>
      TokenStartsWithQuote(x, o.ascii);
      assert s[p + 0] == Token(x, o.ascii).t[0];
      StringRoundTrips(cfg.strictUtf8, x, o.ascii, b, p);
  }

  /** Every written value starts with a byte that is no white space and closes no container. */
  lemma FirstByte(o: DumpOptions, lib: FloatLib, v: Json, depth: nat)
    requires FloatsRoundTrip(lib) && WriteValue(o, 0, lib, v, depth).Text?
    ensures var t := WriteValue(o, 0, lib, v, depth).t;
      |t| > 0 && !IsWs(t[0]) && t[0] != RBRACKET && t[0] != RBRACE
  {
    match v
    case Int(i) => IntTextShape(i);
    case Float(d) =>
      var i, j, k := DoubleTextIsToken(lib, d);
      assert IsDigit(DoubleText(lib, d)[i]);
    case _ =>
  }

  // ---- the round trip ----

  predicate IsDepthFailure(r: Parsed<Json>) {
    r.Fail? && r.error.Positioned? && r.error.code == MaxDepthExceeded
  }

  /** The value with its end when the depth limit allows it, else a depth failure. */
  predicate Gives(r: Parsed<Json>, within: bool, v: Json, next: nat) {
    if within then r == Ok(v, next) else IsDepthFailure(r)
  }

  ghost predicate Ready(o: DumpOptions, cfg: Config, v: Json) {
    RoundTrips(cfg, o) && Readable(cfg.strictUtf8, v) && WellKeyed(v)
  }

  lemma ReadyParts(o: DumpOptions, cfg: Config, v: Json)
    requires Ready(o, cfg, v)
    ensures !cfg.json5 && FloatsRoundTrip(cfg.lib) && !BadIndent(o)
  {
  }

  /** A written value, after optional white space from p to q, parses back to itself. */
  lemma {:induction false} ParsesBack(o: DumpOptions, cfg: Config, v: Json, depth: nat, s: bytes, p: nat, q: nat,
      top: bool, t: bytes)
    requires Ready(o, cfg, v) && Within(cfg.maxDepth, depth) && WriteValue(o, 0, cfg.lib, v, depth) == Text(t)
    requires p <= |s| && SkipWs(s, p) == q && MatchAt(s, q, t) && Delimited(s, q + |t|)
    ensures Gives(ParseValue(cfg, Whole(s), p, depth, top), Within(cfg.maxDepth, depth + Depth(v)), v, q + |t|)
    decreases v, 2, 0
  {
    if v.Arr? {
      ArrayBack(o, cfg, v, depth, s, p, q, top, t);
    } else if v.Obj? {
      ObjectBack(o, cfg, v, depth, s, p, q, top, t);
    } else {
      ScalarBack(o, cfg, v, depth, s, p, q, top, t);
    }
  }

  lemma ScalarBack(o: DumpOptions, cfg: Config, v: Json, depth: nat, s: bytes, p: nat, q: nat, top: bool, t: bytes)
    requires Ready(o, cfg, v) && !v.Arr? && !v.Obj? && Within(cfg.maxDepth, depth) &&
      WriteValue(o, 0, cfg.lib, v, depth) == Text(t)
    requires p <= |s| && SkipWs(s, p) == q && MatchAt(s, q, t) && Delimited(s, q + |t|)
    ensures Gives(ParseValue(cfg, Whole(s), p, depth, top), Within(cfg.maxDepth, depth + Depth(v)), v, q + |t|)
  {
    hide ParseScalar, WriteValue, WellKeyed, Readable;
    ScalarParses(o, cfg, v, depth, s, q, top);
    ScalarAt(cfg, Whole(s), p, q, depth, top);
  }

  // ---- arrays ----

  lemma ArrayText(o: DumpOptions, lib: FloatLib, v: Json, depth: nat, t: bytes)
    requires v.Arr? && WriteValue(o, 0, lib, v, depth) == Text(t)
    ensures |v.items| == 0 ==> t == [LBRACKET, RBRACKET]
    ensures |v.items| > 0 ==>
      WriteElements(o, 0, lib, v, 0, depth).Text? && t == [LBRACKET] + WriteElements(o, 0, lib, v, 0, depth).t
  {
    hide WriteElements;
  }

  lemma {:induction false} ArrayBack(o: DumpOptions, cfg: Config, v: Json, depth: nat, s: bytes, p: nat, q: nat,
      top: bool, t: bytes)
    requires v.Arr? && Ready(o, cfg, v) && Within(cfg.maxDepth, depth) && WriteValue(o, 0, cfg.lib, v, depth) == Text(t)
    requires p <= |s| && SkipWs(s, p) == q && MatchAt(s, q, t)
    ensures Gives(ParseValue(cfg, Whole(s), p, depth, top), Within(cfg.maxDepth, depth + Depth(v)), v, q + |t|)
    decreases v, 1, |v.items| + 2
  {
    hide WriteValue, WriteElements, ParseValue, ParseArray, Ready, MatchAt;
    ArrayText(o, cfg.lib, v, depth, t);
    ReadyParts(o, cfg, v);
    var e := t[1..];
    assert t == [LBRACKET] + e;
    MatchConcat(s, q, [LBRACKET], e);
    MatchByte(s, q, LBRACKET);
    ArrayOpens(cfg, Whole(s), p, q, depth, top);
    if !TooDeep(cfg, depth) { ArrayBodyBack(o, cfg, v, depth, s, q + 1, e); }
  }

  lemma {:induction false} ArrayBodyBack(o: DumpOptions, cfg: Config, v: Json, depth: nat, s: bytes, p: nat, e: bytes)
    requires v.Arr? && Ready(o, cfg, v) && Within(cfg.maxDepth, depth + 1) && MatchAt(s, p, e)
    requires if |v.items| == 0 then e == [RBRACKET] else WriteElements(o, 0, cfg.lib, v, 0, depth) == Text(e)
    ensures p <= |s| &&
      Gives(ParseArray(cfg, Whole(s), p, depth + 1), Within(cfg.maxDepth, depth + Depth(v)), v, p + |e|)
    decreases v, 1, |v.items| + 1
  {
    hide WriteElements, ParseElements, Ready, ParseArray, SkipWs;
    if |v.items| == 0 {
      MatchByte(s, p, RBRACKET);
      EmptyArray(o, cfg, v, s, p, depth + 1);
      assert v == Arr([]);
    } else {
      ElementsFirst(o, cfg, v, depth, s, p, e);
      hide MatchAt;
      ElementsBack(o, cfg, v, 0, depth, s, SkipWs(s, p), p, [], e);
    }
  }

  lemma EmptyArray(o: DumpOptions, cfg: Config, v: Json, s: bytes, p: nat, depth: nat)
    requires Ready(o, cfg, v) && p < |s| && s[p] == RBRACKET
    ensures ParseArray(cfg, Whole(s), p, depth) == Ok(Arr([]), p + 1)
  {
    hide ParseElements, WellKeyed, Readable;
    assert SkipWs(s, p) == p;
  }

  lemma ElementsFirst(o: DumpOptions, cfg: Config, v: Json, depth: nat, s: bytes, p: nat, t: bytes)
    requires v.Arr? && 0 < |v.items| && Ready(o, cfg, v)
    requires WriteElements(o, 0, cfg.lib, v, 0, depth) == Text(t) && MatchAt(s, p, t)
    ensures p <= |s| &&
      ParseArray(cfg, Whole(s), p, depth + 1) == ParseElements(cfg, Whole(s), SkipWs(s, p), depth + 1, [])
    ensures SkipWs(s, SkipWs(s, p)) == SkipWs(s, p)
  {
    hide ParseElements, WellKeyed, Readable, FloatsRoundTrip, WriteElements, WriteValue, ElementsTail;
    var x, y := ElementStart(o, cfg, v, 0, depth, s, p, t);
  }

  /** Element i starts at x, behind its indentation, and ends at y, where the tail starts. */
  lemma ElementStart(o: DumpOptions, cfg: Config, v: Json, i: nat, depth: nat, s: bytes, at: nat, t: bytes)
      returns (x: nat, y: nat)
    requires v.Arr? && i < |v.items| && Ready(o, cfg, v)
    requires WriteElements(o, 0, cfg.lib, v, i, depth) == Text(t) && MatchAt(s, at, t)
    ensures at <= |s| && SkipWs(s, at) == x < y <= |s| && s[x] != RBRACKET
    ensures WriteValue(o, 0, cfg.lib, v.items[i], depth + 1) == Text(s[x..y]) && MatchAt(s, x, s[x..y])
    ensures ElementsTail(o, 0, cfg.lib, v, i + 1, depth).Text? &&
      MatchAt(s, y, ElementsTail(o, 0, cfg.lib, v, i + 1, depth).t)
    ensures at + |t| == y + |ElementsTail(o, 0, cfg.lib, v, i + 1, depth).t|
  {
    hide WriteValue, ElementsTail, Indent;
    var w := WriteValue(o, 0, cfg.lib, v.items[i], depth + 1);
    var tail := ElementsTail(o, 0, cfg.lib, v, i + 1, depth);
    MatchThen(s, at, Text(Indent(o, depth + 1)), Then(w, tail));
    x := at + |Indent(o, depth + 1)|;
    MatchThen(s, x, w, tail);
    FirstByte(o, cfg.lib, v.items[i], depth + 1);
    assert s[x + 0] == w.t[0];
    SkipsIndent(o, depth + 1, s, at);
    y := x + |w.t|;
    MatchSlice(s, x, w.t);
  }

  lemma ReadyElement(o: DumpOptions, cfg: Config, v: Json, i: nat)
    requires Ready(o, cfg, v)
    ensures v.Arr? && i < |v.items| ==> Ready(o, cfg, v.items[i])
    ensures v.Obj? && i < |v.members| ==> Ready(o, cfg, v.members[i].value) && DistinctKeys(v.members)
    ensures v.Obj? && i < |v.members| && cfg.strictUtf8 ==> WellFormed(v.members[i].key)
  {
  }

  lemma {:induction false} ElementsBack(o: DumpOptions, cfg: Config, v: Json, i: nat, depth: nat, s: bytes, p: nat,
      at: nat, acc: seq<Json>, t: bytes)
    requires v.Arr? && i < |v.items| && acc == v.items[..i] && Ready(o, cfg, v) && Within(cfg.maxDepth, depth + 1)
    requires WriteElements(o, 0, cfg.lib, v, i, depth) == Text(t) && MatchAt(s, at, t)
    requires p <= |s| && at <= |s| && SkipWs(s, p) == SkipWs(s, at)
    ensures Gives(ParseElements(cfg, Whole(s), p, depth + 1, acc), Within(cfg.maxDepth, depth + 1 + DeepestItem(v, i)),
      v, at + |t|)
    decreases v, 1, |v.items| - i
  {
    hide Ready, ParseElements, ParseValue, ParseSeparator, WriteValue, WriteElements, ElementsTail, SkipWs;
    var x, y := ElementStart(o, cfg, v, i, depth, s, at, t);
    ElementSeparator(o, cfg, v, i + 1, depth, s, y);
    ReadyElement(o, cfg, v, i);
    ParsesBack(o, cfg, v.items[i], depth + 1, s, p, x, false, s[x..y]);
    ElementsStep(cfg, Whole(s), p, depth + 1, acc);
    assert acc + [v.items[i]] == v.items[..i + 1];
    if Within(cfg.maxDepth, depth + 1 + Depth(v.items[i])) {
      if i + 1 < |v.items| {
        ElementsBack(o, cfg, v, i + 1, depth, s, y + 1, y + 1, v.items[..i + 1],
          WriteElements(o, 0, cfg.lib, v, i + 1, depth).t);
      } else {
        assert v.items[..|v.items|] == v.items;
      }
    }
  }

  /** What follows element i - 1 in the text, as the parser's separator step sees it. */
  lemma ElementSeparator(o: DumpOptions, cfg: Config, v: Json, i: nat, depth: nat, s: bytes, y: nat)
    requires v.Arr? && i <= |v.items| && Ready(o, cfg, v)
    requires ElementsTail(o, 0, cfg.lib, v, i, depth).Text? && MatchAt(s, y, ElementsTail(o, 0, cfg.lib, v, i, depth).t)
    ensures Delimited(s, y)
    ensures i == |v.items| ==>
      ParseSeparator(cfg, Whole(s), y, RBRACKET) == Ok(Done, y + |ElementsTail(o, 0, cfg.lib, v, i, depth).t|)
    ensures i < |v.items| ==> y + 1 <= |s| && ParseSeparator(cfg, Whole(s), y, RBRACKET) == Ok(Another, y + 1)
    ensures i < |v.items| ==> var w := WriteElements(o, 0, cfg.lib, v, i, depth);
      w.Text? && MatchAt(s, y + 1, w.t) && |ElementsTail(o, 0, cfg.lib, v, i, depth).t| == 1 + |w.t|
  {
    hide WriteElements, WellKeyed, Readable;
    if i == |v.items| {
      CloseFollows(o, cfg, depth, s, y, RBRACKET);
    } else {
      MatchThen(s, y, Text([COMMA]), WriteElements(o, 0, cfg.lib, v, i, depth));
      MatchByte(s, y, COMMA);
    }
  }

  lemma CloseFollows(o: DumpOptions, cfg: Config, depth: nat, s: bytes, y: nat, close: byte)
    requires RoundTrips(cfg, o) && (close == RBRACKET || close == RBRACE) && MatchAt(s, y, Indent(o, depth) + [close])
    ensures Delimited(s, y) && ParseSeparator(cfg, Whole(s), y, close) == Ok(Done, y + |Indent(o, depth)| + 1)
  {
    MatchConcat(s, y, Indent(o, depth), [close]);
    MatchByte(s, y + |Indent(o, depth)|, close);
    SkipsIndent(o, depth, s, y);
    if o.pretty { assert s[y + 0] == Indent(o, depth)[0]; }
  }

  // ---- objects ----

  lemma ObjectText(o: DumpOptions, lib: FloatLib, v: Json, depth: nat, t: bytes)
    requires v.Obj? && WriteValue(o, 0, lib, v, depth) == Text(t)
    ensures |v.members| == 0 ==> t == [LBRACE, RBRACE]
    ensures |v.members| > 0 ==>
      WriteMembers(o, 0, lib, v, 0, depth).Text? && t == [LBRACE] + WriteMembers(o, 0, lib, v, 0, depth).t
  {
    hide WriteMembers;
  }

  lemma {:induction false} ObjectBack(o: DumpOptions, cfg: Config, v: Json, depth: nat, s: bytes, p: nat, q: nat,
      top: bool, t: bytes)
    requires v.Obj? && Ready(o, cfg, v) && Within(cfg.maxDepth, depth) && WriteValue(o, 0, cfg.lib, v, depth) == Text(t)
    requires p <= |s| && SkipWs(s, p) == q && MatchAt(s, q, t)
    ensures Gives(ParseValue(cfg, Whole(s), p, depth, top), Within(cfg.maxDepth, depth + Depth(v)), v, q + |t|)
    decreases v, 1, |v.members| + 2
  {
    hide WriteValue, WriteMembers, ParseValue, ParseObject, Ready, MatchAt;
    ObjectText(o, cfg.lib, v, depth, t);
    ReadyParts(o, cfg, v);
    var e := t[1..];
    assert t == [LBRACE] + e;
    MatchConcat(s, q, [LBRACE], e);
    MatchByte(s, q, LBRACE);
    ObjectOpens(cfg, Whole(s), p, q, depth, top);
    if !TooDeep(cfg, depth) { ObjectBodyBack(o, cfg, v, depth, s, q + 1, e); }
  }

  lemma {:induction false} ObjectBodyBack(o: DumpOptions, cfg: Config, v: Json, depth: nat, s: bytes, p: nat, e: bytes)
    requires v.Obj? && Ready(o, cfg, v) && Within(cfg.maxDepth, depth + 1) && MatchAt(s, p, e)
    requires if |v.members| == 0 then e == [RBRACE] else WriteMembers(o, 0, cfg.lib, v, 0, depth) == Text(e)
    ensures p <= |s| &&
      Gives(ParseObject(cfg, Whole(s), p, depth + 1), Within(cfg.maxDepth, depth + Depth(v)), v, p + |e|)
    decreases v, 1, |v.members| + 1
  {
    hide WriteMembers, ParseMembers, Ready, ParseObject, SkipWs, MatchAt;
    ReadyParts(o, cfg, v);
    if |v.members| == 0 {
      MatchByte(s, p, RBRACE);
      EmptyObject(cfg, Whole(s), p, depth + 1);
      assert v == Obj([]);
    } else {
      MembersFirst(o, cfg, v, depth, s, p, e);
      MembersBack(o, cfg, v, 0, depth, s, SkipWs(s, p), p, [], e);
    }
  }

  lemma EmptyObject(cfg: Config, b: Input, p: nat, depth: nat)
    requires !cfg.json5 && p < |b.buf| && b.buf[p] == RBRACE
    ensures ParseObject(cfg, b, p, depth) == Ok(Obj([]), p + 1)
  {
    hide ParseMembers;
    assert SkipWs(b.buf, p) == p;
  }

  lemma MembersFirst(o: DumpOptions, cfg: Config, v: Json, depth: nat, s: bytes, p: nat, t: bytes)
    requires v.Obj? && 0 < |v.members| && Ready(o, cfg, v)
    requires WriteMembers(o, 0, cfg.lib, v, 0, depth) == Text(t) && MatchAt(s, p, t)
    ensures p <= |s| &&
      ParseObject(cfg, Whole(s), p, depth + 1) == ParseMembers(cfg, Whole(s), SkipWs(s, p), depth + 1, [])
    ensures SkipWs(s, SkipWs(s, p)) == SkipWs(s, p)
  {
    hide ParseMembers, WellKeyed, Readable, FloatsRoundTrip, WriteMembers, WriteValue, MembersTail, Token, KeySep;
    var x, c, z, y := MemberStart(o, cfg, v, 0, depth, s, p, t);
  }

  /** The pieces of member i: its key at x, the colon at c, its value from z to y, where the tail starts. */
  lemma MemberStart(o: DumpOptions, cfg: Config, v: Json, i: nat, depth: nat, s: bytes, at: nat, t: bytes)
      returns (x: nat, c: nat, z: nat, y: nat)
    requires v.Obj? && i < |v.members| && Ready(o, cfg, v)
    requires WriteMembers(o, 0, cfg.lib, v, i, depth) == Text(t) && MatchAt(s, at, t)
    ensures at <= |s| && SkipWs(s, at) == x < c < z < y <= |s| && s[x] == QUOTE
    ensures Token(v.members[i].key, o.ascii) == Text(s[x..c]) && MatchAt(s, x, s[x..c])
    ensures z == c + |KeySep(o)| && MatchAt(s, c, KeySep(o)) && !IsWs(s[z])
    ensures WriteValue(o, 0, cfg.lib, v.members[i].value, depth + 1) == Text(s[z..y]) && MatchAt(s, z, s[z..y])
    ensures MembersTail(o, 0, cfg.lib, v, i + 1, depth).Text? &&
      MatchAt(s, y, MembersTail(o, 0, cfg.lib, v, i + 1, depth).t)
    ensures at + |t| == y + |MembersTail(o, 0, cfg.lib, v, i + 1, depth).t|
  {
    hide WriteMembers, WriteValue, MembersTail, Indent, Token, Ready, FloatsRoundTrip;
    var k := Token(v.members[i].key, o.ascii);
    var w := WriteValue(o, 0, cfg.lib, v.members[i].value, depth + 1);
    var tail := MembersTail(o, 0, cfg.lib, v, i + 1, depth);
    x, c, z, y := MemberPieces(o, cfg.lib, v, i, depth, s, at, t);
    TokenStartsQuoted(v.members[i].key, o.ascii);
    ReadyParts(o, cfg, v);
    FirstByte(o, cfg.lib, v.members[i].value, depth + 1);
    assert s[x + 0] == k.t[0] && s[z + 0] == w.t[0];
    SkipsIndent(o, depth + 1, s, at);
    MatchSlice(s, x, k.t);
    MatchSlice(s, z, w.t);
  }

  lemma MemberPieces(o: DumpOptions, lib: FloatLib, v: Json, i: nat, depth: nat, s: bytes, at: nat, t: bytes)
      returns (x: nat, c: nat, z: nat, y: nat)
    requires v.Obj? && i < |v.members| && WriteMembers(o, 0, lib, v, i, depth) == Text(t) && MatchAt(s, at, t)
    ensures var k := Token(v.members[i].key, o.ascii);
      var w := WriteValue(o, 0, lib, v.members[i].value, depth + 1);
      var tail := MembersTail(o, 0, lib, v, i + 1, depth);
      && k.Text? && w.Text? && tail.Text?
      && x == at + |Indent(o, depth + 1)| && c == x + |k.t| && z == c + |KeySep(o)| && y == z + |w.t|
      && MatchAt(s, at, Indent(o, depth + 1)) && MatchAt(s, x, k.t) && MatchAt(s, c, KeySep(o)) &&
        MatchAt(s, z, w.t) && MatchAt(s, y, tail.t)
      && at + |t| == y + |tail.t|
  {
    hide WriteValue, MembersTail, Indent, Token, KeySep, MatchAt;
    var k := Token(v.members[i].key, o.ascii);
    var w := WriteValue(o, 0, lib, v.members[i].value, depth + 1);
    var tail := MembersTail(o, 0, lib, v, i + 1, depth);
    var sep := Text(KeySep(o));
    x := at + |Indent(o, depth + 1)|;
    c := x + |k.t|;
    z := c + |sep.t|;
    y := z + |w.t|;
    MatchThen(s, at, Text(Indent(o, depth + 1)), Then(k, Then(sep, Then(w, tail))));
    MatchThen(s, x, k, Then(sep, Then(w, tail)));
    MatchThen(s, c, sep, Then(w, tail));
    MatchThen(s, z, w, tail);
  }

  lemma TokenStartsQuoted(raw: bytes, ascii: bool)
    ensures Token(raw, ascii).Text? ==> |Token(raw, ascii).t| >= 2 && Token(raw, ascii).t[0] == QUOTE
  {
  }

  /** The key token of an entry parses back. */
  lemma KeyTokenBack(o: DumpOptions, cfg: Config, key: bytes, s: bytes, x: nat, c: nat)
    requires !cfg.json5 && (cfg.strictUtf8 ==> WellFormed(key)) && x < c <= |s| && s[x] == QUOTE
    requires Token(key, o.ascii) == Text(s[x..c]) && MatchAt(s, x, s[x..c])
    ensures ParseKey(cfg, Whole(s), x) == Ok(key, c)
  {
    hide Token, ParseString, MatchAt, WellFormed;
    StringRoundTrips(cfg.strictUtf8, key, o.ascii, Whole(s), x);
  }

  /** The separator after a key: a colon, then white space up to the value. */
  lemma SeparatorLayout(o: DumpOptions, s: bytes, c: nat)
    requires c + |KeySep(o)| < |s| && MatchAt(s, c, KeySep(o)) && !IsWs(s[c + |KeySep(o)|])
    ensures s[c] == COLON && SkipWs(s, c) == c && SkipWs(s, c + 1) == c + |KeySep(o)|
  {
    assert s[c + 0] == KeySep(o)[0];
    if o.pretty { assert s[c + 1] == KeySep(o)[1]; }
  }

  /** Key and colon of member i, and the white space before its value. */
  lemma KeyBack(o: DumpOptions, cfg: Config, ms: seq<Member>, i: nat, s: bytes, p: nat, x: nat, c: nat)
    requires i < |ms| && !cfg.json5 && DistinctKeys(ms) && (cfg.strictUtf8 ==> WellFormed(ms[i].key))
    requires p <= |s| && SkipWs(s, p) == x < c <= |s| && s[x] == QUOTE
    requires c + |KeySep(o)| < |s| && MatchAt(s, c, KeySep(o)) && !IsWs(s[c + |KeySep(o)|])
    requires Token(ms[i].key, o.ascii) == Text(s[x..c]) && MatchAt(s, x, s[x..c])
    ensures ParseKeyColon(cfg, Whole(s), p, ms[..i]) == Ok(ms[i].key, c + 1)
    ensures SkipWs(s, c + 1) == c + |KeySep(o)|
  {
    hide Token, MatchAt, WellFormed, KeySep, DistinctKeys, ParseKey, SkipWs;
    KeyTokenBack(o, cfg, ms[i].key, s, x, c);
    SeparatorLayout(o, s, c);
    NewKey(ms, i);
  }

  lemma NewKey(ms: seq<Member>, i: nat)
    requires i < |ms| && DistinctKeys(ms)
    ensures ms[i].key !in Keys(ms[..i])
  {
  }

  lemma {:induction false} MembersBack(o: DumpOptions, cfg: Config, v: Json, i: nat, depth: nat, s: bytes, p: nat,
      at: nat, acc: seq<Member>, t: bytes)
    requires v.Obj? && i < |v.members| && acc == v.members[..i] && Ready(o, cfg, v) && Within(cfg.maxDepth, depth + 1)
    requires WriteMembers(o, 0, cfg.lib, v, i, depth) == Text(t) && MatchAt(s, at, t)
    requires p <= |s| && at <= |s| && SkipWs(s, p) == SkipWs(s, at)
    ensures Gives(ParseMembers(cfg, Whole(s), p, depth + 1, acc),
      Within(cfg.maxDepth, depth + 1 + DeepestMember(v, i)), v, at + |t|)
    decreases v, 1, |v.members| - i
  {
    hide ParseMembers, ParseValue, ParseSeparator, ParseKeyColon, WriteValue, WriteMembers, MembersTail, SkipWs,
      KeySep, Token, Upsert,
      WellKeyed, Readable, DistinctKeys, FloatsRoundTrip;
    var m := v.members[i];
    var x, c, z, y := MemberStart(o, cfg, v, i, depth, s, at, t);
    ReadyElement(o, cfg, v, i);
    KeyBack(o, cfg, v.members, i, s, p, x, c);
    MemberSeparator(o, cfg, v, i + 1, depth, s, y);
    ParsesBack(o, cfg, m.value, depth + 1, s, c + 1, z, false, s[z..y]);
    MembersStep(cfg, Whole(s), p, depth + 1, acc);
    AppendsNext(v.members, i);
    if Within(cfg.maxDepth, depth + 1 + Depth(m.value)) {
      if i + 1 < |v.members| {
        MembersBack(o, cfg, v, i + 1, depth, s, y + 1, y + 1, v.members[..i + 1],
          WriteMembers(o, 0, cfg.lib, v, i + 1, depth).t);
      } else {
        assert v.members[..|v.members|] == v.members;
      }
    }
  }

  /** Distinct keys: inserting the next entry appends it. */
  lemma AppendsNext(ms: seq<Member>, i: nat)
    requires DistinctKeys(ms) && i < |ms|
    ensures Upsert(ms[..i], ms[i].key, ms[i].value) == ms[..i + 1]
  {
    FirstMatchUnique(ms[..i], ms[i].key, i);
  }

  lemma MemberSeparator(o: DumpOptions, cfg: Config, v: Json, i: nat, depth: nat, s: bytes, y: nat)
    requires v.Obj? && i <= |v.members| && Ready(o, cfg, v)
    requires MembersTail(o, 0, cfg.lib, v, i, depth).Text? && MatchAt(s, y, MembersTail(o, 0, cfg.lib, v, i, depth).t)
    ensures Delimited(s, y)
    ensures i == |v.members| ==>
      ParseSeparator(cfg, Whole(s), y, RBRACE) == Ok(Done, y + |MembersTail(o, 0, cfg.lib, v, i, depth).t|)
    ensures i < |v.members| ==> y + 1 <= |s| && ParseSeparator(cfg, Whole(s), y, RBRACE) == Ok(Another, y + 1)
    ensures i < |v.members| ==> var w := WriteMembers(o, 0, cfg.lib, v, i, depth);
      w.Text? && MatchAt(s, y + 1, w.t) && |MembersTail(o, 0, cfg.lib, v, i, depth).t| == 1 + |w.t|
  {
    hide WriteMembers, WellKeyed, Readable;
    if i == |v.members| {
      CloseFollows(o, cfg, depth, s, y, RBRACE);
    } else {
      MatchThen(s, y, Text([COMMA]), WriteMembers(o, 0, cfg.lib, v, i, depth));
      MatchByte(s, y, COMMA);
    }
  }

  // ---- whole documents ----

  /**
   Parsing undoes dumping. Whatever the options, the limit and the strictness settings of an RFC-mode parser: a
   successful dump of a tree with distinct keys parses to that tree (with its objects in key order under sort_keys)
   exactly when the parser's depth limit admits the tree's depth, and otherwise fails with the depth error.
   */
  lemma DumpThenParse(o: DumpOptions, md: nat, cfg: Config, v: Json)
    requires !cfg.json5 && FloatsRoundTrip(cfg.lib) && WellKeyed(v) && Readable(cfg.strictUtf8, v)
    requires Dump(o, md, cfg.lib, v).Text?
    ensures var t := Dump(o, md, cfg.lib, v).t;
      Gives(ParseDocument(cfg, Whole(t)), Within(cfg.maxDepth, Depth(v)), Arranged(o, v), |t|)
  {
    hide WriteValue, SortTree, Depth;
    var a := Arranged(o, v);
    var t := Dump(o, md, cfg.lib, v).t;
    if o.sortKeys { SortTreeKeeps(cfg.strictUtf8, v); }
    LimitDecides(o, md, cfg.lib, a, 0);
    WholeBack(o, cfg, a, t);
  }

  /** The writer refuses a tree for its depth exactly when the parser, under the same limit, refuses its text. */
  lemma DepthsAgree(o: DumpOptions, cfg: Config, v: Json)
    requires !cfg.json5 && FloatsRoundTrip(cfg.lib) && WellKeyed(v) && Readable(cfg.strictUtf8, v)
    requires Dump(o, 0, cfg.lib, v).Text?
    ensures Dump(o, cfg.maxDepth, cfg.lib, v).Text? <==> ParseDocument(cfg, Whole(Dump(o, 0, cfg.lib, v).t)).Ok?
  {
    hide WriteValue, SortTree, Depth, ParseDocument;
    DumpThenParse(o, 0, cfg, v);
    if o.sortKeys { SortTreeKeeps(cfg.strictUtf8, v); }
    LimitDecides(o, cfg.maxDepth, cfg.lib, Arranged(o, v), 0);
  }

  lemma WholeBack(o: DumpOptions, cfg: Config, v: Json, t: bytes)
    requires Ready(o, cfg, v) && WriteValue(o, 0, cfg.lib, v, 0) == Text(t)
    ensures Gives(ParseDocument(cfg, Whole(t)), Within(cfg.maxDepth, Depth(v)), v, |t|)
  {
    hide WriteValue, WellKeyed, Readable, ParseValue, Depth;
    FirstByte(o, cfg.lib, v, 0);
    assert SkipWs(t, 0) == 0;
    assert !LiteralAt(t, 0, |t|, BOM) by { NoBom(o, cfg, v, t); }
    ParsesBack(o, cfg, v, 0, t, 0, 0, true, t);
    assert SkipWs(t, |t|) == |t|;
  }

  /** No written value starts with the byte order mark. */
  lemma NoBom(o: DumpOptions, cfg: Config, v: Json, t: bytes)
    requires Ready(o, cfg, v) && WriteValue(o, 0, cfg.lib, v, 0) == Text(t)
    ensures !LiteralAt(t, 0, |t|, BOM)
  {
    LiteralFirst(t, 0, |t|, BOM);
    match v
    case Int(i) => IntTextShape(i);
    case Float(d) =>
      var i, j, k := DoubleTextIsToken(cfg.lib, d);
      assert IsDigit(t[i]);
    case Str(x) => TokenStartsWithQuote(x, o.ascii);
    case _ =>
  }

  // ---- sorted trees ----

  lemma {:induction false} SortTreeKeeps(strict: bool, v: Json)
    requires WellKeyed(v) && Readable(strict, v)
    ensures WellKeyed(SortTree(v)) && Readable(strict, SortTree(v)) && Depth(SortTree(v)) == Depth(v)
    decreases v
  {
    match v
    case Arr(items) =>
      forall i | 0 <= i < |items|
        ensures WellKeyed(SortTree(items[i])) && Readable(strict, SortTree(items[i])) &&
          Depth(SortTree(items[i])) == Depth(items[i])
      {
        SortTreeKeeps(strict, items[i]);
      }
      SameDepthItems(v, SortTree(v), 0);
    case Obj(ms) =>
      var es := SortValues(v);
      forall i | 0 <= i < |ms|
        ensures WellKeyed(es[i].value) && Readable(strict, es[i].value) && Depth(es[i].value) == Depth(ms[i].value)
      {
        SortTreeKeeps(strict, ms[i].value);
      }
      SameDepthMembers(v, Obj(es), 0);
      assert WellKeyed(Obj(es)) && Readable(strict, Obj(es));
      hide SortValues;
      PermutedKeeps(strict, es, SortMembers(es));
    case _ =>
  }

  lemma PermutedKeeps(strict: bool, es: seq<Member>, r: seq<Member>)
    requires multiset(es) == multiset(r) && WellKeyed(Obj(es)) && Readable(strict, Obj(es))
    ensures WellKeyed(Obj(r)) && Readable(strict, Obj(r)) && DeepestMember(Obj(r), 0) == DeepestMember(Obj(es), 0)
  {
    forall k | 0 <= k < |r| ensures exists i :: 0 <= i < |es| && es[i] == r[k] {
      assert r[k] in multiset(r);
      assert r[k] in es;
    }
    DistinctByMultiset(es, r);
    DepthByMultiset(es, r);
  }

  lemma {:induction false} SameDepthItems(a: Json, b: Json, i: nat)
    requires a.Arr? && b.Arr? && |a.items| == |b.items| && i <= |a.items|
    requires forall k :: 0 <= k < |a.items| ==> Depth(b.items[k]) == Depth(a.items[k])
    ensures DeepestItem(a, i) == DeepestItem(b, i)
    decreases |a.items| - i
  {
    if i < |a.items| { SameDepthItems(a, b, i + 1); }
  }

  lemma {:induction false} SameDepthMembers(a: Json, b: Json, i: nat)
    requires a.Obj? && b.Obj? && |a.members| == |b.members| && i <= |a.members|
    requires forall k :: 0 <= k < |a.members| ==> Depth(b.members[k].value) == Depth(a.members[k].value)
    ensures DeepestMember(a, i) == DeepestMember(b, i)
    decreases |a.members| - i
  {
    if i < |a.members| { SameDepthMembers(a, b, i + 1); }
  }

  /** DeepestMember is the maximum, so it does not depend on the order. */
  lemma {:induction false} DeepestIsMax(v: Json, i: nat)
    requires v.Obj? && i <= |v.members|
    ensures forall k :: i <= k < |v.members| ==> Depth(v.members[k].value) <= DeepestMember(v, i)
    ensures DeepestMember(v, i) == 0 || exists k ::
      i <= k < |v.members| && Depth(v.members[k].value) == DeepestMember(v, i)
    decreases |v.members| - i
  {
    if i < |v.members| { DeepestIsMax(v, i + 1); }
  }

  lemma DepthByMultiset(a: seq<Member>, b: seq<Member>)
    requires multiset(a) == multiset(b)
    ensures DeepestMember(Obj(a), 0) == DeepestMember(Obj(b), 0)
  {
    DeepestIsMax(Obj(a), 0);
    DeepestIsMax(Obj(b), 0);
    DeepestAtMost(a, b);
    DeepestAtMost(b, a);
  }

  lemma DeepestAtMost(a: seq<Member>, b: seq<Member>)
    requires multiset(a) == multiset(b)
    ensures DeepestMember(Obj(a), 0) <= DeepestMember(Obj(b), 0)
  {
    DeepestIsMax(Obj(a), 0);
    DeepestIsMax(Obj(b), 0);
    if DeepestMember(Obj(a), 0) > 0 {
      var k :| 0 <= k < |a| && Depth(a[k].value) == DeepestMember(Obj(a), 0);
      assert a[k] in multiset(b);
      var l :| 0 <= l < |b| && b[l] == a[k];
      assert Depth(Obj(b).members[l].value) <= DeepestMember(Obj(b), 0);
    }
  }
}
