/**
 JSON Lines said from the text: what its lines are, which of them are blank, and, in JSON5 mode, what each of the others
 stands for.
 */
module JsonlMeaning {
  import opened Core
  import opened Lexis
  import opened Json5Lexer
  import opened ParserSpec
  import opened Json5Grammar
  import opened Json5Reading
  import opened Json5Texts

  import Jsonl

  // ---- lines ----

  /** The line s[p..n] without the carriage return of its line break. */
  function WithoutCr(s: bytes, p: nat, n: nat): bytes
    requires p <= n <= |s|
  {
    if p < n && s[n - 1] == '\r' as int then s[p..n - 1] else s[p..n]
  }

  /** The line from p ends at n: at the next line feed, or at the end of the text. */
  predicate LineTo(s: bytes, p: nat, n: nat) {
    p <= n <= |s| && p < |s| && (n == |s| || s[n] == '\n' as int) && forall i :: p <= i < n ==> s[i] != '\n' as int
  }

  /** The text from p on is these lines, each but perhaps the last with a line feed behind it. */
  ghost predicate AreLines(s: bytes, p: nat, lines: seq<bytes>)
    decreases |lines|
  {
    if |lines| == 0 then p == |s|
    else exists n: nat ::
      && LineTo(s, p, n) && lines[0] == WithoutCr(s, p, n)
      && AreLines(s, if n < |s| then n + 1 else n, lines[1..])
  }

  lemma {:induction false} LinesMean(s: bytes, p: nat, lines: seq<bytes>)
    requires p <= |s|
    ensures Jsonl.Lines(s, p) == lines <==> AreLines(s, p, lines)
    decreases |s| - p
  {
    if p < |s| && |lines| > 0 {
      var n := Jsonl.NextLf(s, p);
      assert LineTo(s, p, n) && forall m: nat :: LineTo(s, p, m) ==> m == n;
      LinesMean(s, Jsonl.NextLine(s, p), lines[1..]);
      assert lines == [lines[0]] + lines[1..];
      assert Jsonl.Lines(s, p)[1..] == Jsonl.Lines(s, Jsonl.NextLine(s, p));
    }
  }

  // ---- blank lines ----

  ghost predicate OnlyWhite(s: bytes, p: nat)
    decreases |s| - p
  {
    p == |s| || exists n: nat :: White(s, p, n) && p < n && OnlyWhite(s, n)
  }

  /** A line is blank if it holds nothing but the white space of the mode; a comment does not make it so. */
  lemma BlankLineMeans(line: bytes)
    ensures Jsonl.BlankLine(true, line) <==> OnlyWhite(line, 0)
    ensures Jsonl.BlankLine(false, line) <==> forall k :: 0 <= k < |line| ==> Blank(line[k])
  {
    hide OnlyWhite, Jsonl.Blank5;
    OnlyWhiteIs(line, 0);
  }

  lemma {:induction false} OnlyWhiteIs(s: bytes, p: nat)
    requires p <= |s|
    ensures Jsonl.Blank5(s, p, |s|) <==> OnlyWhite(s, p)
    decreases |s| - p
  {
    hide White, WideWs, IsWs5;
    if p < |s| {
      WhiteAt(s, p);
      if IsWs5(s[p]) {
        OnlyWhiteIs(s, p + 1);
      } else if WideWs(s, p, |s|) > 0 {
        OnlyWhiteIs(s, p + WideWs(s, p, |s|));
      }
    }
  }

  lemma WhiteAt(s: bytes, p: nat)
    requires p < |s|
    ensures IsWs5(s[p]) ==> s[p] < 0x80 && WideWs(s, p, |s|) == 0
    ensures forall n :: White(s, p, n) <==>
      if IsWs5(s[p]) then n == p + 1 else WideWs(s, p, |s|) > 0 && n == p + WideWs(s, p, |s|)
  {
    hide White;
    forall n: nat ensures White(s, p, n) <==>
      if IsWs5(s[p]) then n == p + 1 else WideWs(s, p, |s|) > 0 && n == p + WideWs(s, p, |s|)
    {
      WhiteIs(s, p, n);
    }
  }

  // ---- records ----

  /** Where the first line starts: behind a byte order mark, if one is there to be skipped. */
  function FirstLine(cfg: Config, s: bytes): nat {
    if cfg.stripBom && |s| >= 3 && s[0] == 0xEF && s[1] == 0xBB && s[2] == 0xBF then 3 else 0
  }

  lemma FirstLineIs(cfg: Config, s: bytes)
    ensures SkipBom(cfg, Whole(s)) == FirstLine(cfg, s)
  {
    assert BOM[0] == 0xEF && BOM[1] == 0xBB && BOM[2] == 0xBF;
    if LiteralAt(s, 0, |s|, BOM) { assert s[0 + 0] == BOM[0] && s[0 + 1] == BOM[1] && s[0 + 2] == BOM[2]; }
  }

  /** The lines that are not blank stand for the items, in order. */
  ghost predicate StandFor(cfg: Config, lines: seq<bytes>, items: seq<Json>)
    decreases |lines|
  {
    if |lines| == 0 then items == []
    else if OnlyWhite(lines[0], 0) then StandFor(cfg, lines[1..], items)
    else |items| > 0 && Text5(cfg, lines[0], items[0]) && StandFor(cfg, lines[1..], items[1..])
  }

  lemma {:induction false} LinesStandFor(cfg: Config, lines: seq<bytes>, items: seq<Json>)
    requires Json5Mode(cfg)
    ensures StandFor(Jsonl.LineConfig(cfg), lines, items) <==>
      Jsonl.AllAccepted(cfg, lines) && Jsonl.AloneValues(cfg, lines) == items
    decreases |lines|
  {
    hide OnlyWhite, Text5, ParseDocument, Jsonl.BlankLine;
    if |lines| > 0 {
      var l := lines[0];
      BlankLineMeans(l);
      Json5IsGrammar(Jsonl.LineConfig(cfg), l);
      RestAccepted(cfg, lines);
      if Jsonl.BlankLine(true, l) {
        LinesStandFor(cfg, lines[1..], items);
      } else if |items| > 0 {
        LinesStandFor(cfg, lines[1..], items[1..]);
        assert items == [items[0]] + items[1..];
      }
    }
  }

  lemma RestAccepted(cfg: Config, lines: seq<bytes>)
    requires |lines| > 0
    ensures Jsonl.AllAccepted(cfg, lines) <==>
      (Jsonl.BlankLine(cfg.json5, lines[0]) || Jsonl.Alone(cfg, lines[0]).Ok?) && Jsonl.AllAccepted(cfg, lines[1..])
  {
    hide Jsonl.BlankLine, Jsonl.Alone;
    if Jsonl.AllAccepted(cfg, lines[1..]) {
      forall k | 1 <= k < |lines| && !Jsonl.BlankLine(cfg.json5, lines[k]) ensures Jsonl.Alone(cfg, lines[k]).Ok? {
        assert lines[1..][k - 1] == lines[k];
      }
    }
    if Jsonl.AllAccepted(cfg, lines) {
      forall k | 0 <= k < |lines| - 1 && !Jsonl.BlankLine(cfg.json5, lines[1..][k])
        ensures Jsonl.Alone(cfg, lines[1..][k]).Ok?
      {
        assert lines[1..][k] == lines[k + 1];
      }
    }
  }

  /**
   In JSON5 mode a text of records is accepted, with these items, if and only if its lines that are not blank stand for
   them one by one.
   */
  lemma Json5Records(cfg: Config, s: bytes, items: seq<Json>)
    requires Json5Mode(cfg)
    ensures Jsonl.ParseLines(cfg, s) == Jsonl.Values(items) <==>
      exists lines :: AreLines(s, FirstLine(cfg, s), lines) && StandFor(Jsonl.LineConfig(cfg), lines, items)
  {
    hide Jsonl.ParseLines, Jsonl.Lines, AreLines, StandFor, Jsonl.AllAccepted, Jsonl.AloneValues;
    FirstLineIs(cfg, s);
    var p := FirstLine(cfg, s);
    var ls := Jsonl.Lines(s, p);
    Jsonl.RecordsAreLines(cfg, s);
    LinesStandFor(cfg, ls, items);
    LinesMean(s, p, ls);
    forall lines | AreLines(s, p, lines) ensures lines == ls { LinesMean(s, p, lines); }
  }
}
