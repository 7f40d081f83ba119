/**
 JSON Lines: one document per line of a shared buffer. Every line has a parser of its own over that buffer, whose white
 space scan is not held back by the line's end. The lines' outcome is nevertheless that of the lines taken one by one.
 */
module Jsonl {
  import opened Core
  import opened Grammar
  import opened Json5Lexer
  import opened ParserSpec
  import opened LineCut
  import opened LineCut5
  import opened LineHops
  import opened InPlace
  import opened Probing
  import P = Parser

  // ---- lines ----

  /** First LF at or after i, or the length of the text. */
  function NextLf(s: bytes, i: nat): (nl: nat)
    requires i <= |s|
    ensures i <= nl <= |s| && (nl < |s| ==> s[nl] == LF)
    ensures forall k :: i <= k < nl ==> s[k] != LF
    decreases |s| - i
  {
    if i < |s| && s[i] != LF then NextLf(s, i + 1) else i
  }

  /** Where the content of the line from i ends: before its LF and one CR in front of it. */
  function ContentEnd(s: bytes, i: nat): (e: nat)
    requires i <= |s|
    ensures i <= e <= NextLf(s, i)
  {
    var nl := NextLf(s, i);
    if nl > i && s[nl - 1] == CR then nl - 1 else nl
  }

  /** Where the next line starts. */
  function NextLine(s: bytes, i: nat): (n: nat)
    requires i < |s|
    ensures i < n <= |s|
  {
    var nl := NextLf(s, i);
    if nl < |s| then nl + 1 else |s|
  }

  /** Only JSON5 white space between k and e, multi-byte code points included. */
  predicate Blank5(s: bytes, k: nat, e: nat)
    requires e <= |s|
    decreases e - k
  {
    || k >= e
    || (s[k] < 0x80 && IsWs5(s[k]) && Blank5(s, k + 1, e))
    || (WideWs(s, k, e) > 0 && Blank5(s, k + WideWs(s, k, e), e))
  }

  predicate IsBlank(json5: bool, s: bytes, i: nat, e: nat)
    requires i <= e <= |s|
  {
    if json5 then Blank5(s, i, e) else forall k :: i <= k < e ==> IsWs(s[k])
  }

  /** The settings of a line's parser: a byte order mark belongs to the file, not to a line. */
  function LineConfig(cfg: Config): Config { cfg.(stripBom := false) }

  datatype Records = Values(items: seq<Json>) | Rejected(error: Error)

  /** What the parser of the line from i says, over the whole buffer. */
  function LineOutcome(cfg: Config, s: bytes, i: nat): Parsed<Json>
    requires i <= |s|
  {
    ParseDocument(LineConfig(cfg), Input(s[i..], ContentEnd(s, i) - i))
  }

  /** parse_jsonl from the line at i on. */
  function RecordsFrom(cfg: Config, s: bytes, i: nat, acc: seq<Json>): Records
    requires i <= |s|
    decreases |s| - i
  {
    if i == |s| then Values(acc)
    else if IsBlank(cfg.json5, s, i, ContentEnd(s, i)) then RecordsFrom(cfg, s, NextLine(s, i), acc)
    else
      match LineOutcome(cfg, s, i)
      case Fail(e) => Rejected(e)
      case Ok(v, _) => RecordsFrom(cfg, s, NextLine(s, i), acc + [v])
  }

  function ParseLines(cfg: Config, s: bytes): Records {
    RecordsFrom(cfg, s, SkipBom(cfg, Whole(s)), [])
  }

  // ---- the lines taken one by one ----

  /** The lines of a text, without their line breaks. */
  function Lines(s: bytes, i: nat): (lines: seq<bytes>)
    requires i <= |s|
    decreases |s| - i
  {
    if i == |s| then [] else [s[i..ContentEnd(s, i)]] + Lines(s, NextLine(s, i))
  }

  predicate BlankLine(json5: bool, line: bytes) { IsBlank(json5, line, 0, |line|) }

  /** The line by itself, in a buffer that holds nothing else. */
  function Alone(cfg: Config, line: bytes): Parsed<Json> {
    ParseDocument(LineConfig(cfg), Whole(line))
  }

  predicate AllAccepted(cfg: Config, lines: seq<bytes>) {
    forall k :: 0 <= k < |lines| && !BlankLine(cfg.json5, lines[k]) ==> Alone(cfg, lines[k]).Ok?
  }

  /** The values of the non-blank lines, in order. */
  function AloneValues(cfg: Config, lines: seq<bytes>): seq<Json>
    requires AllAccepted(cfg, lines)
  {
    if |lines| == 0 then []
    else
      assert forall k :: 0 <= k < |lines| - 1 ==> lines[1..][k] == lines[k + 1];
      if BlankLine(cfg.json5, lines[0]) then AloneValues(cfg, lines[1..])
      else [Alone(cfg, lines[0]).value] + AloneValues(cfg, lines[1..])
  }

  // ---- one line ----

  lemma LineBreaks(s: bytes, i: nat)
    requires i <= |s|
    ensures Breaks(s[i..], ContentEnd(s, i) - i)
    ensures var t, e := s[i..], ContentEnd(s, i) - i; e < |t| ==> t[e] == LF || (e + 1 < |t| ==> t[e + 1] == LF)
  {
  }

  lemma BlankIsWs(s: bytes, i: nat)
    requires i <= |s|
    ensures var e := ContentEnd(s, i); IsBlank(false, s, i, e) <==> SkipWs(s[i..], 0) >= e - i
    ensures var e := ContentEnd(s, i); IsBlank(false, s, i, e) <==> BlankLine(false, s[i..e])
  {
    var e := ContentEnd(s, i);
    var t, q := s[i..], SkipWs(s[i..], 0);
    assert q < |t| ==> t[q] == s[i + q];
    if q >= e - i {
      forall k | i <= k < e ensures IsWs(s[k]) { assert t[k - i] == s[k]; }
    }
    var l := s[i..e];
    if BlankLine(false, l) {
      forall k | i <= k < e ensures IsWs(s[k]) { assert l[k - i] == s[k]; }
    }
  }

  lemma {:induction false} Blank5Moved(s: bytes, i: nat, e: nat, k: nat)
    requires i + k <= e <= |s|
    ensures Blank5(s[i..e], k, e - i) <==> Blank5(s, i + k, e)
    decreases e - k
  {
    hide WideWs, IsWs5;
    var l := s[i..e];
    WideWsMoved(l, s, i, k);
    if i + k < e {
      assert l[k] == s[i + k];
      Blank5Moved(s, i, e, k + 1);
      var n := WideWs(s, i + k, e);
      if n > 0 { Blank5Moved(s, i, e, k + n); }
    }
  }

  /** A line is blank in the text if and only if it is blank alone. */
  lemma LineBlank(json5: bool, s: bytes, i: nat)
    requires i <= |s|
    ensures var e := ContentEnd(s, i); IsBlank(json5, s, i, e) <==> BlankLine(json5, s[i..e])
  {
    hide Blank5;
    if json5 { Blank5Moved(s, i, ContentEnd(s, i), 0); } else { BlankIsWs(s, i); }
  }

  /** The value of the line at i ends inside the line. */
  ghost predicate Inside(cfg: Config, s: bytes, i: nat)
    requires i <= |s|
  {
    var r := ParseValue(LineConfig(cfg), Input(s[i..], ContentEnd(s, i) - i), 0, 0, true);
    r.Ok? ==> r.next <= ContentEnd(s, i) - i
  }

  lemma BothDocuments(cfg: Config, t: bytes, e: nat)
    requires !cfg.json5 && !cfg.stripBom && Breaks(t, e)
    requires var r := ParseValue(cfg, Input(t, e), 0, 0, true); r.Ok? ==> r.next <= e
    ensures var a := ParseDocument(cfg, Cut(t, e)); var b := ParseDocument(cfg, Input(t, e));
      (a.Ok? <==> b.Ok?) && (a.Ok? ==> a.value == b.value)
  {
    hide ParseValue, SkipWs;
    ValueCut(cfg, t, e, 0, 0, true);
    var r := ParseValue(cfg, Input(t, e), 0, 0, true);
    if r.Ok? { WsCut(t, e, r.next); }
  }

  /**
   A line whose value does not run over is accepted in the buffer exactly when it is accepted alone, with the same
   value.
   */
  lemma InsideIsAlone(cfg: Config, s: bytes, i: nat)
    requires !cfg.json5 && i <= |s| && Inside(cfg, s, i)
    ensures var a := Alone(cfg, s[i..ContentEnd(s, i)]); var b := LineOutcome(cfg, s, i);
      (a.Ok? <==> b.Ok?) && (a.Ok? ==> a.value == b.value)
  {
    hide ParseDocument, ParseValue;
    var e := ContentEnd(s, i);
    LineBreaks(s, i);
    assert s[i..][..e - i] == s[i..e];
    BothDocuments(LineConfig(cfg), s[i..], e - i);
  }

  /** A line accepted alone does not run over in the buffer. */
  lemma AloneIsInside(cfg: Config, s: bytes, i: nat)
    requires !cfg.json5 && i <= |s| && Alone(cfg, s[i..ContentEnd(s, i)]).Ok?
    ensures Inside(cfg, s, i)
  {
    hide ParseValue;
    var e := ContentEnd(s, i);
    LineBreaks(s, i);
    assert s[i..][..e - i] == s[i..e];
    ValueCut(LineConfig(cfg), s[i..], e - i, 0, 0, true);
  }

  // ---- a JSON5 line ----

  /** The line at i holds trivia only, and a line break follows it. */
  predicate CommentLine(cfg: Config, s: bytes, i: nat)
    requires i <= |s|
  {
    OnlyTrivia(LineConfig(cfg), s[i..], ContentEnd(s, i) - i, 0)
  }

  /** What the line's parser says in terms of the line alone: the same, but for the code on a line of comments only. */
  function AloneOutcome(cfg: Config, s: bytes, i: nat): Parsed<Json>
    requires i <= |s|
  {
    var e := ContentEnd(s, i);
    if CommentLine(cfg, s, i) then Fail(Positioned(UnexpectedValueCharacter, e - i)) else Alone(cfg, s[i..e])
  }

  lemma BoundedIsAlone(cfg: Config, s: bytes, i: nat)
    requires cfg.json5 && i <= |s|
    ensures LineOutcome(cfg, s, i) == AloneOutcome(cfg, s, i)
    ensures CommentLine(cfg, s, i) ==> Alone(cfg, s[i..ContentEnd(s, i)]).Fail?
  {
    hide ParseDocument, OnlyTrivia, Breaks;
    var e := ContentEnd(s, i);
    LineBreaks(s, i);
    assert s[i..][..e - i] == s[i..e];
    DocumentAlike(LineConfig(cfg), s[i..], e - i);
  }

  // ---- a line that runs over is answered for by a later one ----

  /** The start of the line that holds y. */
  function LineStart(s: bytes, y: nat): (ls: nat)
    requires y <= |s|
    ensures ls <= y && (ls > 0 ==> s[ls - 1] == LF)
    ensures forall k :: ls <= k < y ==> s[k] != LF
  {
    if y > 0 && s[y - 1] != LF then LineStart(s, y - 1) else y
  }

  lemma {:induction false} LfAfter(s: bytes, ls: nat, y: nat)
    requires ls <= y < |s| && forall k :: ls <= k <= y ==> s[k] != LF
    ensures NextLf(s, ls) > y
    decreases y - ls
  {
    if ls < y { LfAfter(s, ls + 1, y); }
  }

  /** The line from ls on, which holds the byte at y, ends behind it. */
  lemma EndsBehind(s: bytes, ls: nat, y: nat)
    requires ls <= y < |s| && !IsWs(s[y]) && forall k :: ls <= k < y ==> s[k] != LF
    ensures ContentEnd(s, ls) > y
  {
    LfAfter(s, ls, y);
  }

  /** A line that starts at d and reaches y, where the run-over value of the line before it ends, is refused. */
  lemma StuckFails(cfg: Config, t: bytes, e: nat, d: nat, e': nat, n: nat)
    requires !cfg.json5 && !cfg.stripBom && Breaks(t, e) && e <= d && d + e' <= |t| && n <= d + e'
    requires Stuck(cfg, t, e, SkipWs(t, d), n)
    ensures ParseDocument(cfg, Rest(t, d, e')).Fail?
  {
    hide ParseValue, ParseScalar, Rest, Stuck, ClosedValue, SkipWs, Moves;
    var x := SkipWs(t, d);
    WsMoved(t, d, 0);
    if IsCloser(At(t, x)) {
      CloserFails(cfg, Rest(t, d, e'));
    } else {
      var depth := StuckDepth(cfg, t, e, x, n);
      ClosedFails(cfg, t, e, d, e', n, x, depth);
    }
  }

  lemma StuckDepth(cfg: Config, t: bytes, e: nat, x: nat, n: nat) returns (depth: nat)
    requires e <= |t| && x <= |t| && Stuck(cfg, t, e, x, n) && !IsCloser(At(t, x))
    ensures ClosedValue(cfg, t, e, x, n, depth)
  {
    hide ParseValue, ClosedValue;
    depth :| ClosedValue(cfg, t, e, x, n, depth);
  }

  lemma CloserFails(cfg: Config, b: Input)
    requires !cfg.json5 && !cfg.stripBom && IsCloser(At(b.buf, SkipWs(b.buf, 0)))
    ensures ParseDocument(cfg, b).Fail?
  {
    hide ParseValue, SkipWs;
    ScalarAt(cfg, b, 0, SkipWs(b.buf, 0), 0, true);
  }

  lemma ClosedFails(cfg: Config, t: bytes, e: nat, d: nat, e': nat, n: nat, x: nat, depth: nat)
    requires !cfg.json5 && !cfg.stripBom && Breaks(t, e) && e <= d && d + e' <= |t| && n <= d + e'
    requires x == SkipWs(t, d) && ClosedValue(cfg, t, e, x, n, depth)
    ensures ParseDocument(cfg, Rest(t, d, e')).Fail?
  {
    hide ParseValue, SkipWs, Rest;
    var b := Rest(t, d, e');
    WsMoved(t, d, 0);
    ValueMoved(cfg, t, e, e', d, x - d, depth, 0, true);
    ValueFrom(cfg, b, 0, 0, true);
    WsMoved(t, d, ParseValue(cfg, b, x - d, 0, true).next);
  }

  /** Every non-blank line start from i on is accepted. */
  ghost predicate AllPass(cfg: Config, s: bytes, i: nat) {
    forall ls: nat :: i <= ls < |s| && (ls == i || s[ls - 1] == LF) ==> Passes(cfg, s, ls)
  }

  ghost predicate Passes(cfg: Config, s: bytes, ls: nat)
    requires ls <= |s|
  {
    IsBlank(cfg.json5, s, ls, ContentEnd(s, ls)) || LineOutcome(cfg, s, ls).Ok?
  }

  lemma {:induction false} ValuesPass(cfg: Config, s: bytes, i: nat, acc: seq<Json>)
    requires i <= |s| && RecordsFrom(cfg, s, i, acc).Values?
    ensures AllPass(cfg, s, i)
    decreases |s| - i
  {
    hide LineOutcome, IsBlank;
    if i < |s| {
      var next := NextLine(s, i);
      if IsBlank(cfg.json5, s, i, ContentEnd(s, i)) {
        ValuesPass(cfg, s, next, acc);
      } else {
        ValuesPass(cfg, s, next, acc + [LineOutcome(cfg, s, i).value]);
      }
    }
  }

  lemma LinePasses(cfg: Config, s: bytes, i: nat, acc: seq<Json>, ls: nat)
    requires i <= ls < |s| && (ls == i || s[ls - 1] == LF)
    ensures RecordsFrom(cfg, s, i, acc).Values? ==> Passes(cfg, s, ls)
  {
    if RecordsFrom(cfg, s, i, acc).Values? { ValuesPass(cfg, s, i, acc); }
  }

  lemma OverrunLine(cfg: Config, t: bytes, e: nat, n: nat) returns (d: nat)
    requires !cfg.json5 && Breaks(t, e) && SkipWs(t, 0) < e < n
    requires e < |t| ==> t[e] == LF || (e + 1 < |t| ==> t[e + 1] == LF)
    requires var r := ParseValue(cfg, Input(t, e), 0, 0, true); r.Ok? && r.next == n
    ensures e < d < n <= |t| && t[d - 1] == LF && !IsWs(t[n - 1]) && (forall k :: d <= k < n - 1 ==> t[k] != LF)
    ensures Stuck(cfg, t, e, SkipWs(t, d), n)
  {
    hide ParseValue, SkipWs, Stuck;
    OverrunEnd(cfg, t, e, 0, true);
    d := LineStart(t, n - 1);
    LastLine(t, e, n - 1, d);
    WsStops(t, d, n - 1);
    ValueHops(cfg, t, e, 0, 0, true, SkipWs(t, d));
  }

  /** A line whose value runs over its end has a later line that is refused. */
  lemma OverrunIsRefused(cfg: Config, s: bytes, i: nat) returns (ls: nat)
    requires !cfg.json5 && i < |s| && !IsBlank(false, s, i, ContentEnd(s, i)) && !Inside(cfg, s, i)
    ensures i < ls < |s| && s[ls - 1] == LF && !IsBlank(false, s, ls, ContentEnd(s, ls)) &&
      LineOutcome(cfg, s, ls).Fail?
  {
    hide ParseValue, ParseDocument, Stuck, SkipWs, IsBlank, ContentEnd, NextLf, Breaks, IsWs;
    var c, t, e := LineConfig(cfg), s[i..], ContentEnd(s, i) - i;
    LineBreaks(s, i);
    BlankIsWs(s, i);
    var n := ParseValue(c, Input(t, e), 0, 0, true).next;
    var d := OverrunLine(c, t, e, n);
    ls := i + d;
    MovedLine(s, i, d, n - 1);
    StuckFails(c, t, e, d, ContentEnd(s, ls) - ls, n);
    BlankIsWs(s, ls);
  }

  /** The last line of a value that runs over opens below the line break. */
  lemma LastLine(t: bytes, e: nat, y: nat, d: nat)
    requires Breaks(t, e) && e <= y < |t| && !IsWs(t[y]) && d == LineStart(t, y)
    requires e < |t| ==> t[e] == LF || (e + 1 < |t| ==> t[e + 1] == LF)
    ensures e < d && t[d - 1] == LF && Opens(t, e, SkipWs(t, d))
  {
    WsStops(t, d, y);
    var x := SkipWs(t, d);
    assert x > d ==> IsWs(t[x - 1]);
  }

  lemma MovedLine(s: bytes, i: nat, d: nat, y: nat)
    requires i <= |s| && d <= y < |s| - i && !IsWs(s[i..][y]) && forall k :: d <= k < y ==> s[i..][k] != LF
    ensures s[i + d..] == s[i..][d..] && ContentEnd(s, i + d) > i + y
    ensures SkipWs(s[i + d..], 0) <= y - d
  {
    var t := s[i..];
    forall k | i + d <= k < i + y ensures s[k] != LF { assert t[k - i] == s[k]; }
    EndsBehind(s, i + d, i + y);
    assert s[i + d..][y - d] == t[y];
    WsStops(s[i + d..], 0, y - d);
  }

  // ---- the theorem ----

  lemma FirstLine(cfg: Config, line: bytes, rest: seq<bytes>)
    ensures AllAccepted(cfg, [line] + rest) <==>
      (BlankLine(cfg.json5, line) || Alone(cfg, line).Ok?) && AllAccepted(cfg, rest)
    ensures AllAccepted(cfg, [line] + rest) ==>
      AloneValues(cfg, [line] + rest) ==
        (if BlankLine(cfg.json5, line) then [] else [Alone(cfg, line).value]) + AloneValues(cfg, rest)
  {
    hide Alone, BlankLine;
    var all := [line] + rest;
    assert all[1..] == rest;
    assert all[0] == line;
    assert forall k :: 0 <= k < |rest| ==> rest[k] == all[k + 1];
    assert forall k :: 1 <= k < |all| ==> all[k] == rest[k - 1];
    assert [] + AloneValues(cfg, []) == [];
  }

  lemma {:induction false} RecordsAgree(cfg: Config, s: bytes, i: nat, acc: seq<Json>)
    requires i <= |s|
    ensures var lines := Lines(s, i); var r := RecordsFrom(cfg, s, i, acc);
      (r.Values? <==> AllAccepted(cfg, lines)) && (r.Values? ==> r.items == acc + AloneValues(cfg, lines))
    decreases |s| - i
  {
    hide LineOutcome, Alone, BlankLine, IsBlank, AllAccepted, AloneValues, Inside;
    if i == |s| {
      NoLines(cfg, acc);
    } else {
      var e, next := ContentEnd(s, i), NextLine(s, i);
      FirstLine(cfg, s[i..e], Lines(s, next));
      LineBlank(cfg.json5, s, i);
      if IsBlank(cfg.json5, s, i, e) {
        RecordsAgree(cfg, s, next, acc);
      } else if cfg.json5 || Inside(cfg, s, i) {
        if cfg.json5 { BoundedIsAlone(cfg, s, i); } else { InsideIsAlone(cfg, s, i); }
        var v := LineOutcome(cfg, s, i);
        if v.Ok? { RecordsAgree(cfg, s, next, acc + [v.value]); }
      } else {
        OverrunLosesBoth(cfg, s, i, acc);
      }
    }
  }

  lemma NoLines(cfg: Config, acc: seq<Json>)
    ensures AllAccepted(cfg, []) && acc + AloneValues(cfg, []) == acc
  {
  }

  lemma OverrunLosesBoth(cfg: Config, s: bytes, i: nat, acc: seq<Json>)
    requires !cfg.json5 && i < |s| && !IsBlank(false, s, i, ContentEnd(s, i)) && !Inside(cfg, s, i)
    ensures Alone(cfg, s[i..ContentEnd(s, i)]).Fail? && RecordsFrom(cfg, s, i, acc).Rejected?
  {
    hide LineOutcome, Alone, Inside, IsBlank, RecordsFrom;
    if Alone(cfg, s[i..ContentEnd(s, i)]).Ok? { AloneIsInside(cfg, s, i); }
    var ls := OverrunIsRefused(cfg, s, i);
    LinePasses(cfg, s, i, acc, ls);
  }

  /**
   In both modes a text is accepted exactly when every non-blank line parsed alone is, and yields those values in order,
   although in RFC mode a line's parser may read on into the lines below it.
   */
  lemma RecordsAreLines(cfg: Config, s: bytes)
    ensures var lines := Lines(s, SkipBom(cfg, Whole(s))); var r := ParseLines(cfg, s);
      (r.Values? <==> AllAccepted(cfg, lines)) && (r.Values? ==> r.items == AloneValues(cfg, lines))
  {
    hide RecordsFrom, Lines, AllAccepted, AloneValues;
    RecordsAgree(cfg, s, SkipBom(cfg, Whole(s)), []);
  }

  /** The lines from i on taken one by one, up to the first one refused. */
  function AloneFrom(cfg: Config, s: bytes, i: nat, acc: seq<Json>): Records
    requires i <= |s|
    decreases |s| - i
  {
    if i == |s| then Values(acc)
    else if BlankLine(cfg.json5, s[i..ContentEnd(s, i)]) then AloneFrom(cfg, s, NextLine(s, i), acc)
    else
      match AloneOutcome(cfg, s, i)
      case Fail(e) => Rejected(e)
      case Ok(v, _) => AloneFrom(cfg, s, NextLine(s, i), acc + [v])
  }

  lemma {:induction false} ErrorsAgree(cfg: Config, s: bytes, i: nat, acc: seq<Json>)
    requires cfg.json5 && i <= |s|
    ensures RecordsFrom(cfg, s, i, acc) == AloneFrom(cfg, s, i, acc)
    decreases |s| - i
  {
    hide LineOutcome, AloneOutcome, BlankLine, IsBlank, NextLine, ContentEnd;
    if i < |s| {
      LineBlank(cfg.json5, s, i);
      BoundedIsAlone(cfg, s, i);
      ErrorsAgree(cfg, s, NextLine(s, i), acc);
      var v := LineOutcome(cfg, s, i);
      if v.Ok? { ErrorsAgree(cfg, s, NextLine(s, i), acc + [v.value]); }
    }
  }

  /**
   In JSON5 mode the first error, code and offset in its line, is that of the first refused line alone, unless that line
   holds comments only and is followed by a line break.
   */
  lemma RecordErrorsAreLines(cfg: Config, s: bytes)
    requires cfg.json5
    ensures ParseLines(cfg, s) == AloneFrom(cfg, s, SkipBom(cfg, Whole(s)), [])
  {
    hide RecordsFrom, AloneFrom;
    ErrorsAgree(cfg, s, SkipBom(cfg, Whole(s)), []);
  }

  // ---- the loop over a shared buffer ----

  method IsBlankJson5(mem: array<byte>, i: nat, len: nat, ghost s: bytes) returns (blank: bool)
    requires i + len <= |s| && Unread(mem, 0, s, PADDING, i)
    ensures blank == Blank5(s, i, i + len)
  {
    hide WideWs, IsWs5, Blank5;
    var k: nat := 0;
    while k < len
      invariant k <= len && Blank5(s, i, i + len) == Blank5(s, i + k, i + len)
    {
      Blank5Step(s, i + k, i + len);
      var c := mem[i + k];
      if c < 0x80 {
        if !IsWs5(c) {
          return false;
        }
        k := k + 1;
      } else {
        var line := mem[i..i + len];
        var unit := WideWs(line, k, len);
        WideWsMoved(line, s, i, k);
        if unit == 0 {
          return false;
        }
        k := k + unit;
      }
    }
    Blank5Step(s, i + k, i + len);
    return true;
  }

  lemma Blank5Step(s: bytes, k: nat, e: nat)
    requires e <= |s|
    ensures k >= e ==> Blank5(s, k, e)
    ensures k < e && s[k] < 0x80 ==> (Blank5(s, k, e) <==> IsWs5(s[k]) && Blank5(s, k + 1, e))
    ensures k < e && s[k] >= 0x80 ==> (Blank5(s, k, e) <==> WideWs(s, k, e) > 0 && Blank5(s, k + WideWs(s, k, e), e))
  {
  }

  method IsBlankLine(mem: array<byte>, i: nat, len: nat, json5: bool, ghost s: bytes) returns (blank: bool)
    requires i + len <= |s| && Unread(mem, 0, s, PADDING, i)
    ensures blank == IsBlank(json5, s, i, i + len)
  {
    if json5 {
      blank := IsBlankJson5(mem, i, len, s);
      return;
    }
    var k: nat := 0;
    while k < len
      invariant k <= len && forall j :: i <= j < i + k ==> IsWs(s[j])
    {
      if !IsWs(mem[i + k]) {
        return false;
      }
      k := k + 1;
    }
    return true;
  }

  lemma WideWsMoved(line: bytes, s: bytes, i: nat, k: nat)
    requires i + |line| <= |s| && forall j :: 0 <= j < |line| ==> line[j] == s[i + j]
    ensures WideWs(line, k, |line|) == WideWs(s, i + k, i + |line|)
  {
  }

  lemma RecordsStep(cfg: Config, s: bytes, i: nat, acc: seq<Json>)
    requires i < |s|
    ensures var r := RecordsFrom(cfg, s, i, acc); var v := LineOutcome(cfg, s, i);
      if IsBlank(cfg.json5, s, i, ContentEnd(s, i)) then r == RecordsFrom(cfg, s, NextLine(s, i), acc)
      else if v.Ok? then r == RecordsFrom(cfg, s, NextLine(s, i), acc + [v.value])
      else r == Rejected(v.error)
  {
    hide LineOutcome, IsBlank, NextLine, ContentEnd;
  }

  /** parse_jsonl: the lines of the buffer in turn, up to the first one refused. */
  method ParseJsonl(mem: array<byte>, n: nat, width: nat, cfg: Config, hash: Hash, ghost s: bytes) returns (r: Records)
    requires 1 <= width <= 64 && n == |s| && Unread(mem, 0, s, PADDING, 0)
    modifies mem
    ensures r == ParseLines(cfg, s)
  {
    hide LineOutcome, IsBlank, NextLf, RecordsFrom;
    var items: seq<Json> := [];
    var i: nat := 0;
    if cfg.stripBom && n >= 3 && mem[0] == 0xEF && mem[1] == 0xBB && mem[2] == 0xBF {
      i := 3;
    }
    assert i == SkipBom(cfg, Whole(s)) by {
      assert BOM[0] == 0xEF && BOM[1] == 0xBB && BOM[2] == 0xBF;
    }
    while i < n
      invariant i <= n && Unread(mem, 0, s, PADDING, i)
      invariant ParseLines(cfg, s) == RecordsFrom(cfg, s, i, items)
      decreases n - i
    {
      RecordsStep(cfg, s, i, items);
      var nl := FindLf(mem, i, n, s);
      var len := nl - i;
      if len > 0 && mem[i + len - 1] == CR {
        len := len - 1;
      }
      var blank := IsBlankLine(mem, i, len, cfg.json5, s);
      if !blank {
        var v := ParseLine(mem, i, len, n, width, cfg, hash, s);
        if v.Fail? {
          return Rejected(v.error);
        }
        items := items + [v.value];
      }
      i := if nl < n then nl + 1 else n;
    }
    NoRecords(cfg, s, items);
    return Values(items);
  }

  lemma NoRecords(cfg: Config, s: bytes, acc: seq<Json>)
    ensures RecordsFrom(cfg, s, |s|, acc) == Values(acc)
  {
  }

  method FindLf(mem: array<byte>, i: nat, n: nat, ghost s: bytes) returns (nl: nat)
    requires i <= n == |s| && Unread(mem, 0, s, PADDING, i)
    ensures nl == NextLf(s, i)
  {
    nl := i;
    while nl < n && mem[nl] != LF
      invariant i <= nl <= n && NextLf(s, nl) == NextLf(s, i)
    {
      nl := nl + 1;
    }
  }

  /** A parser of its own for the line, over the buffer that holds all of them. */
  method ParseLine(mem: array<byte>, i: nat, len: nat, n: nat, width: nat, cfg: Config, hash: Hash, ghost s: bytes)
      returns (v: Parsed<Json>)
    requires 1 <= width <= 64 && i + len <= n == |s| && len == ContentEnd(s, i) - i && Unread(mem, 0, s, PADDING, i)
    modifies mem
    ensures v.Ok? <==> LineOutcome(cfg, s, i).Ok?
    ensures v.Ok? ==> v.value == LineOutcome(cfg, s, i).value && Unread(mem, 0, s, PADDING, i + len)
    ensures v.Fail? ==> v == LineOutcome(cfg, s, i)
  {
    hide ParseDocument;
    LineBreaks(s, i);
    ghost var t := s[i..];
    var parser := new P.Parser(mem, i, n - i, len, width, LineConfig(cfg), hash, t);
    var ok, out := parser.Parse();
    if !ok {
      return Fail(parser.error.value);
    }
    return Ok(out, 0);
  }
}
