/**
 Numbers seen through a window: scanning the window gives what scanning the stream gives, positions apart, as soon as
 the scan stops before the window's end or the stream has ended there.
 */
module StreamNumbers {
  import opened Core
  import opened Grammar
  import opened Numbers
  import opened Json5Lexer

  /** From p on, the window w holds the stream s at distance d. */
  ghost predicate Window(w: bytes, s: bytes, d: nat, p: nat) {
    d + |w| <= |s| && forall i :: p <= i < |w| ==> w[i] == s[d + i]
  }

  function Moved(sc: NumScan, d: nat): NumScan { sc.(next := sc.next + d, intStart := sc.intStart + d) }

  lemma {:induction false} DigitRunMoved(w: bytes, s: bytes, d: nat, p: nat)
    requires Window(w, s, d, p)
    ensures DigitRun(s, d + p, d + |w|) == d + DigitRun(w, p, |w|)
    decreases |w| - p
  {
    if p < |w| && IsDigit(w[p]) { DigitRunMoved(w, s, d, p + 1); }
  }

  lemma WindowLater(w: bytes, s: bytes, d: nat, p: nat, q: nat)
    requires Window(w, s, d, p) && p <= q
    ensures Window(w, s, d, q)
  {
  }

  lemma ExpMoved(w: bytes, s: bytes, d: nat, p: nat, sc: NumScan)
    requires Window(w, s, d, p)
    ensures ScanExp(s, d + p, d + |w|, Moved(sc, d)) == Moved(ScanExp(w, p, |w|, sc), d)
  {
    if p < |w| && IsExpMark(w[p]) {
      var m := if p + 1 < |w| && IsSign(w[p + 1]) then p + 2 else p + 1;
      WindowLater(w, s, d, p, m);
      DigitRunMoved(w, s, d, m);
    }
  }

  lemma FracMoved(w: bytes, s: bytes, d: nat, p: nat, sc: NumScan)
    requires Window(w, s, d, p)
    ensures ScanFrac(s, d + p, d + |w|, Moved(sc, d)) == Moved(ScanFrac(w, p, |w|, sc), d)
  {
    if p < |w| && w[p] == DOT {
      WindowLater(w, s, d, p, p + 1);
      DigitRunMoved(w, s, d, p + 1);
      var k := DigitRun(w, p + 1, |w|);
      WindowLater(w, s, d, p, k);
      ExpMoved(w, s, d, k, sc.(isFloat := true));
    } else {
      ExpMoved(w, s, d, p, sc);
    }
  }

  lemma WindowByte(w: bytes, s: bytes, d: nat, p: nat)
    requires Window(w, s, d, p)
    ensures d + |w| <= |s| && (p < |w| ==> w[p] == s[d + p])
  {
  }

  lemma IntMoved(w: bytes, s: bytes, d: nat, i: nat, neg: bool)
    requires Window(w, s, d, i)
    ensures ScanInt(s, d + i, d + |w|, neg) == Moved(ScanInt(w, i, |w|, neg), d)
  {
    hide ScanFrac, Window, DigitRun;
    DigitRunMoved(w, s, d, i);
    var j := DigitRun(w, i, |w|);
    WindowLater(w, s, d, i, j);
    WindowByte(w, s, d, i);
    FracMoved(w, s, d, j, NumScan(NumOk, j, i, j - i, neg, false));
  }

  /** Scanning a window is scanning the stream up to the window's end. */
  lemma ScanMoved(w: bytes, s: bytes, d: nat, p: nat)
    requires Window(w, s, d, p)
    ensures Scan(s, d + p, d + |w|) == Moved(Scan(w, p, |w|), d)
  {
    var neg := p < |w| && w[p] == MINUS;
    var i := if neg then p + 1 else p;
    WindowLater(w, s, d, p, i);
    IntMoved(w, s, d, i, neg);
  }

  function MovedResult(r: Parsed<Json>, d: nat): Parsed<Json> {
    match r
    case Ok(v, n) => Ok(v, n + d)
    case Fail(Positioned(c, o)) => Fail(Positioned(c, o + d))
    case Fail(ContextFree(c)) => Fail(ContextFree(c))
  }

  lemma SliceMoved(w: bytes, s: bytes, d: nat, p: nat, i: nat, j: nat)
    requires Window(w, s, d, p) && p <= i <= j <= |w|
    ensures w[i..j] == s[d + i..d + j]
  {
  }

  lemma ClassifyMoved(lib: FloatLib, w: bytes, s: bytes, d: nat, p: nat, sc: NumScan)
    requires Window(w, s, d, p) && Scanned(w, p, sc) && Scanned(s, d + p, Moved(sc, d))
    ensures Classify(lib, s, d + p, Moved(sc, d)) == MovedResult(Classify(lib, w, p, sc), d)
  {
    SliceMoved(w, s, d, p, p, sc.next);
    SliceMoved(w, s, d, p, sc.intStart, sc.intStart + NarrowedDigits(sc));
    if NarrowedDigits(sc) == 19 { SliceMoved(w, s, d, p, sc.intStart, sc.intStart + 19); }
  }

  lemma ScanWindow(w: bytes, s: bytes, d: nat, p: nat)
    requires Window(w, s, d, p) && p < |w|
    requires Scan(w, p, |w|).next < |w| || d + |w| == |s|
    ensures Scan(s, d + p, |s|) == Moved(Scan(w, p, |w|), d)
  {
    hide Scan;
    ScanMoved(w, s, d, p);
    if d + |w| < |s| { ScanPrefix(s, d + p, d + |w|, |s|); }
  }

  /**
   A number cut by the window's end never changes: once the scan stops before the end, or the stream ends there, the
   window's answer is the stream's answer.
   */
  lemma NumberMoved(lib: FloatLib, w: bytes, s: bytes, d: nat, p: nat)
    requires Window(w, s, d, p) && p < |w|
    requires Scan(w, p, |w|).next < |w| || d + |w| == |s|
    ensures ParseNumber(lib, s, d + p, |s|) == MovedResult(ParseNumber(lib, w, p, |w|), d)
  {
    hide Scan, Classify, Window, IsIntPart, DigitsIn;
    ScanWindow(w, s, d, p);
    var sc := Scan(w, p, |w|);
    if sc.err.NumOk? {
      ScanShape(w, p, |w|);
      ScanShape(s, d + p, |s|);
      ClassifyMoved(lib, w, s, d, p, sc);
    }
  }
}
