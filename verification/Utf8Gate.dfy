/**
 What the UTF-8 gate lets through. Over plain text, the checker accepts exactly the well-formed strings unless a
 control byte falls into a continuation slot. Over RFC strings, where control bytes are refused anyway, strict mode
 accepts exactly the strings whose decoded value is well-formed. Over JSON5 strings the gate reads each run of raw
 bytes between escapes on its own, which is neither the text between the quotes nor the value: both differences are
 stated exactly, with inputs.
 */
module Utf8Gate {
  import opened Core
  import opened Grammar
  import opened Utf8
  import opened Strings
  import StringWriter

  // ---- an incomplete character ----

  /** The checker took b for the first byte of a character of len bytes. */
  predicate LedBy(ck: Checker, b: byte, len: nat) {
    var x := FeedLead(Fresh, b, 0);
    x.code.None? && x.need > 0 && x.need + 1 == len && x.c1lo == ck.c1lo && x.c1hi == ck.c1hi &&
      x.leadCode == ck.leadCode
  }

  /** At position p the checker waits for the rest of the character that starts with part. */
  predicate OpenOn(ck: Checker, part: bytes, p: nat) {
    && ck.code.None? && ck.need > 0 && 0 < |part| <= 3 && ck.lead + |part| == p && LedBy(ck, part[0], |part| + ck.need)
    && (|part| >= 2 ==> ck.c1lo <= part[1] <= ck.c1hi)
    && (|part| == 3 ==> IsTail(part[2]))
  }

  /** Between two characters, or inside one. */
  predicate Waiting(ck: Checker, part: bytes, p: nat) {
    (Clean(ck) && part == []) || OpenOn(ck, part, p)
  }

  lemma OneByte(x: bytes, i: nat, c: byte, y: bytes)
    requires i <= |x|
    ensures (x + [c] + y)[|x|] == c && (i < |x| ==> (x + [c] + y)[i] == x[i])
  {
  }

  lemma FirstByte(ck: Checker, p: nat, c: byte, y: bytes)
    requires Clean(ck)
    ensures var k := Feed(ck, c, p);
      if k.code.Some? then CharLen([c] + y, 0) == 0
      else if k.need > 0 then OpenOn(k, [c], p + 1)
      else Clean(k) && CharLen([c] + y, 0) == 1
  {
    assert ([c] + y)[0] == c;
  }

  /** A byte that is no tail tears the character. */
  lemma TornByte(ck: Checker, part: bytes, p: nat, c: byte, y: bytes)
    requires OpenOn(ck, part, p) && !IsTail(c)
    ensures CharLen(part + [c] + y, 0) == 0
  {
    OneByte(part, 0, c, y);
    OneByte(part, 1, c, y);
  }

  /** So does a second byte outside the range its lead allows. */
  lemma OutOfRange(ck: Checker, part: bytes, p: nat, c: byte, y: bytes)
    requires OpenOn(ck, part, p) && |part| == 1 && !(ck.c1lo <= c <= ck.c1hi)
    ensures CharLen(part + [c] + y, 0) == 0
  {
    OneByte(part, 0, c, y);
  }

  lemma Completes(ck: Checker, part: bytes, p: nat, c: byte, y: bytes)
    requires OpenOn(ck, part, p) && ck.need == 1 && IsTail(c) && (|part| == 1 ==> ck.c1lo <= c <= ck.c1hi)
    ensures CharLen(part + [c] + y, 0) == |part| + 1
  {
    OneByte(part, 0, c, y);
    OneByte(part, 1, c, y);
    if |part| >= 2 { OneByte(part, 2, c, y); }
  }

  lemma NextByte(ck: Checker, part: bytes, p: nat, c: byte, y: bytes)
    requires OpenOn(ck, part, p) && c >= 0x20
    ensures var k := Feed(ck, c, p);
      if k.code.Some? then CharLen(part + [c] + y, 0) == 0
      else if k.need > 0 then OpenOn(k, part + [c], p + 1)
      else Clean(k) && CharLen(part + [c] + y, 0) == |part| + 1
  {
    hide CharLen;
    if !IsTail(c) {
      TornByte(ck, part, p, c, y);
    } else if |part| == 1 && !(ck.c1lo <= c <= ck.c1hi) {
      OutOfRange(ck, part, p, c, y);
    } else if ck.need == 1 {
      Completes(ck, part, p, c, y);
    }
  }

  /** The next byte, wherever the checker stands; a control byte inside a character is the exception. */
  lemma AnyByte(ck: Checker, part: bytes, p: nat, c: byte, y: bytes)
    requires Waiting(ck, part, p) && (c >= 0x20 || ck.need == 0)
    ensures var k := Feed(ck, c, p);
      if k.code.Some? then CharLen(part + [c] + y, 0) == 0
      else if k.need > 0 then Waiting(k, part + [c], p + 1)
      else Clean(k) && CharLen(part + [c] + y, 0) == |part| + 1
  {
    hide CharLen, Feed;
    if ck.need == 0 {
      FirstByte(ck, p, c, y);
      assert part + [c] == [c];
    } else {
      NextByte(ck, part, p, c, y);
    }
  }

  lemma CutShort(ck: Checker, part: bytes, p: nat)
    requires OpenOn(ck, part, p)
    ensures CharLen(part, 0) == 0
  {
  }

  // ---- well-formedness around it ----

  lemma FirstChar(x: bytes, n: nat)
    requires |x| > 0
    ensures CharLen(x, 0) == 0 ==> !WellFormed(x)
    ensures CharLen(x, 0) == n > 0 ==> n <= |x| && (WellFormed(x) <==> WellFormed(x[n..]))
  {
    if CharLen(x, 0) == n > 0 {
      assert x[n..] == x[n..][0..];
      WellFormedShift(x, x[n..], n, 0);
    }
  }

  lemma {:induction false} PrefixDrops(done: bytes, y: bytes)
    requires WellFormed(done)
    ensures WellFormed(done + y) <==> WellFormed(y)
    decreases |done|
  {
    hide CharLen;
    if done == [] {
      assert done + y == y;
    } else {
      var n := CharLen(done, 0);
      FirstChar(done, n);
      CharLenLonger(done, y);
      FirstChar(done + y, n);
      assert (done + y)[n..] == done[n..] + y;
      PrefixDrops(done[n..], y);
    }
  }

  lemma CharLenLonger(x: bytes, y: bytes)
    requires CharLen(x, 0) > 0
    ensures CharLen(x + y, 0) == CharLen(x, 0)
  {
    var n := CharLen(x, 0);
    assert forall i :: 0 <= i < n ==> (x + y)[i] == x[i];
  }

  lemma Complete(x: bytes)
    requires |x| > 0 && CharLen(x, 0) == |x|
    ensures WellFormed(x)
  {
    FirstChar(x, |x|);
  }

  // ---- the checker over plain text ----

  /** From p on, the checker ignores a control byte that stands in a continuation slot. */
  predicate Skips(ck: Checker, s: bytes, p: nat)
    decreases |s| - p
  {
    p < |s| && ck.code.None? && ((s[p] < 0x20 && ck.need > 0) || Skips(Feed(ck, s[p], p), s, p + 1))
  }

  lemma {:induction false} CheckerFrom(s: bytes, p: nat, ck: Checker, part: bytes)
    requires p <= |s| && Waiting(ck, part, p)
    ensures WellFormed(part + s[p..]) <==> End(FeedRange(ck, s, p, |s|)).code.None? && !Skips(ck, s, p)
    decreases |s| - p
  {
    hide CharLen, Feed;
    if p == |s| {
      assert part + s[p..] == part;
      if part != [] {
        CutShort(ck, part, p);
        FirstChar(part, 0);
      }
    } else {
      var c, y := s[p], s[p + 1..];
      assert part + s[p..] == part + [c] + y;
      if c < 0x20 && ck.need > 0 {
        TornByte(ck, part, p, c, y);
        FirstChar(part + [c] + y, 0);
      } else {
        AnyByte(ck, part, p, c, y);
        var k := Feed(ck, c, p);
        FirstChar(part + [c] + y, |part| + 1);
        FeedStep(ck, s, p, |s|);
        if k.code.Some? {
          FeedFailed(k, s, p + 1, |s|);
        } else if k.need > 0 {
          CheckerFrom(s, p + 1, k, part + [c]);
        } else {
          assert (part + [c] + y)[|part| + 1..] == y == [] + y;
          CheckerFrom(s, p + 1, k, []);
        }
      }
    }
  }

  /**
   Feed-and-end against the grammar, for every text: whatever is well-formed is accepted, and what is accepted is
   well-formed exactly when no control byte was skipped.
   */
  lemma CheckerExact(s: bytes)
    ensures WellFormed(s) <==> End(FeedRange(Fresh, s, 0, |s|)).code.None? && !Skips(Fresh, s, 0)
  {
    CheckerFrom(s, 0, Fresh, []);
    assert [] + s[0..] == s;
  }

  lemma {:induction false} NothingSkipped(ck: Checker, s: bytes, p: nat)
    requires p <= |s| && NoControls(s, p, |s|)
    ensures !Skips(ck, s, p)
    decreases |s| - p
  {
    hide Feed;
    if p < |s| { NothingSkipped(Feed(ck, s[p], p), s, p + 1); }
  }

  /**
   The three deciders agree: repeated decoding and the ascii writer on every string, feed-and-end on every string
   without control bytes.
   */
  lemma DecidersAgree(s: bytes)
    ensures DecodesThrough(s, 0) <==> WellFormed(s)
    ensures StringWriter.AsciiEscaped(s, 0).Text? <==> WellFormed(s)
    ensures NoControls(s, 0, |s|) ==> (End(FeedRange(Fresh, s, 0, |s|)).code.None? <==> WellFormed(s))
  {
    hide WellFormedFrom, Skips, FeedRange, DecodesThrough, StringWriter.AsciiEscaped;
    DecoderIsGrammar(s, 0);
    StringWriter.AsciiIsGrammar(s, 0);
    CheckerExact(s);
    if NoControls(s, 0, |s|) { NothingSkipped(Fresh, s, 0); }
  }

  // ---- RFC strings ----

  lemma EscapeWellFormed(s: bytes, p: nat)
    requires p < |s| && Escape(s, p).Ok?
    ensures var t := Escape(s, p).value; |t| > 0 && !IsTail(t[0]) && WellFormed(t)
  {
    hide HexValue, Hex4, EncodeUtf8, WellFormedFrom;
    var c := At(s, p + 1);
    if ShortEscape(c) != 0 {
      Complete([ShortEscape(c)]);
    } else {
      var h := Hex4(s, p + 2);
      if IsHighSurrogate(h.value) {
        ScalarWellFormed(JoinPair(h.value, Hex4(s, h.next + 2).value));
      } else {
        ScalarWellFormed(h.value);
      }
    }
  }

  lemma ScalarWellFormed(cp: nat)
    requires IsScalar(cp)
    ensures EncodeUtf8(cp).Some?
    ensures var t := EncodeUtf8(cp).value; |t| > 0 && !IsTail(t[0]) && WellFormed(t)
  {
    DecodeUndoesEncode(cp);
    Complete(EncodeUtf8(cp).value);
  }

  lemma {:induction false} LaxExtends(s: bytes, p: nat, acc: bytes)
    requires p <= |s|
    ensures Decode(false, s, p, Fresh, acc).Ok? ==> acc <= Decode(false, s, p, Fresh, acc).value
    decreases |s| - p
  {
    hide Decode, Unit;
    DecodeIs(false, s, p, Fresh, acc);
    var u := Unit(s, p);
    if At(s, p) != QUOTE && u.Ok? { LaxExtends(s, u.next, acc + u.value); }
  }

  /** Strict decoding against lax decoding, from a point where done is decoded and part is an incomplete character. */
  ghost predicate Gated(s: bytes, p: nat, ck: Checker, acc: bytes)
    requires p <= |s|
  {
    var a, l := Decode(true, s, p, ck, acc), Decode(false, s, p, Fresh, acc);
    (a.Ok? <==> l.Ok? && WellFormed(l.value)) && (a.Ok? ==> a == l)
  }

  lemma GateQuote(s: bytes, p: nat, ck: Checker, done: bytes, part: bytes)
    requires p <= |s| && At(s, p) == QUOTE && WellFormed(done) && Waiting(ck, part, p)
    ensures Gated(s, p, ck, done + part)
  {
    hide CharLen, Decode, WellFormedFrom;
    DecodeIs(true, s, p, ck, done + part);
    DecodeIs(false, s, p, Fresh, done + part);
    if part == [] {
      assert done + part == done;
    } else {
      CutShort(ck, part, p);
      FirstChar(part, 0);
      PrefixDrops(done, part);
    }
  }

  /** When strict decoding stops at p because of the byte c, the lax value is ill-formed. */
  lemma GateStops(s: bytes, p: nat, done: bytes, part: bytes, t: bytes, n: nat)
    requires p < n <= |s| && WellFormed(done) && |t| > 0
    requires forall y :: CharLen(part + [t[0]] + y, 0) == 0
    ensures var l := Decode(false, s, n, Fresh, done + part + t); l.Ok? ==> !WellFormed(l.value)
  {
    hide CharLen, Decode, WellFormedFrom;
    LaxExtends(s, n, done + part + t);
    var l := Decode(false, s, n, Fresh, done + part + t);
    if l.Ok? {
      var y := t[1..] + l.value[|done + part + t|..];
      assert l.value == done + (part + [t[0]] + y);
      FirstChar(part + [t[0]] + y, 0);
      PrefixDrops(done, part + [t[0]] + y);
    }
  }

  lemma {:induction false} GateEscape(s: bytes, p: nat, ck: Checker, done: bytes, part: bytes)
    requires p < |s| && s[p] == BACKSLASH && WellFormed(done) && Waiting(ck, part, p)
    ensures Gated(s, p, ck, done + part)
    decreases |s| - p, 0
  {
    hide CharLen, Decode, WellFormedFrom, Escape;
    DecodeIs(true, s, p, ck, done + part);
    DecodeIs(false, s, p, Fresh, done + part);
    var u := Escape(s, p);
    if u.Ok? {
      EscapeWellFormed(s, p);
      if part == [] {
        PrefixDrops(done, u.value);
        assert done + part + u.value == (done + u.value) + [];
        Gate(s, u.next, ck, done + u.value, []);
      } else {
        forall y ensures CharLen(part + [u.value[0]] + y, 0) == 0 { TornByte(ck, part, p, u.value[0], y); }
        GateStops(s, p, done, part, u.value, u.next);
      }
    }
  }

  lemma {:induction false} GatePlain(s: bytes, p: nat, ck: Checker, done: bytes, part: bytes)
    requires p < |s| && s[p] != BACKSLASH && s[p] != QUOTE && s[p] >= 0x20 && WellFormed(done) && Waiting(ck, part, p)
    ensures Gated(s, p, ck, done + part)
    decreases |s| - p, 0
  {
    hide CharLen, Decode, WellFormedFrom, Feed;
    DecodeIs(true, s, p, ck, done + part);
    DecodeIs(false, s, p, Fresh, done + part);
    var c, k := s[p], Feed(ck, s[p], p);
    AnyByte(ck, part, p, c, []);
    if k.code.Some? {
      forall y ensures CharLen(part + [[c][0]] + y, 0) == 0 { AnyByte(ck, part, p, c, y); }
      GateStops(s, p, done, part, [c], p + 1);
    } else if k.need > 0 {
      assert done + part + [c] == done + (part + [c]);
      Gate(s, p + 1, k, done, part + [c]);
    } else {
      assert part + [c] + [] == part + [c];
      Complete(part + [c]);
      PrefixDrops(done, part + [c]);
      assert done + part + [c] == (done + (part + [c])) + [];
      Gate(s, p + 1, k, done + (part + [c]), []);
    }
  }

  lemma {:induction false} Gate(s: bytes, p: nat, ck: Checker, done: bytes, part: bytes)
    requires p <= |s| && WellFormed(done) && Waiting(ck, part, p)
    ensures Gated(s, p, ck, done + part)
    decreases |s| - p, 1
  {
    hide Decode, WellFormedFrom, Waiting;
    if At(s, p) == QUOTE {
      GateQuote(s, p, ck, done, part);
    } else if At(s, p) == BACKSLASH {
      GateEscape(s, p, ck, done, part);
    } else if At(s, p) >= 0x20 {
      GatePlain(s, p, ck, done, part);
    } else {
      DecodeIs(true, s, p, ck, done + part);
      DecodeIs(false, s, p, Fresh, done + part);
    }
  }

  /**
   In RFC mode strict_utf8 refuses exactly the strings whose decoded value is ill-formed, and changes nothing else.
   */
  lemma StrictIsWellFormed(b: Input, p: nat)
    requires p <= |b.buf|
    ensures var strict := ParseString(true, b, p); var lax := ParseString(false, b, p);
      (strict.Ok? <==> lax.Ok? && WellFormed(lax.value)) && (strict.Ok? ==> strict == lax)
  {
    hide Decode, WellFormedFrom;
    if p < b.end && b.buf[p] == QUOTE {
      FastPathAgrees(true, b, p);
      FastPathAgrees(false, b, p);
      Nothing();
      var none: bytes := [];
      Gate(b.buf, p + 1, Fresh, none, none);
      assert none + none == [];
      hide ParseString;
    }
  }

  lemma Nothing()
    ensures WellFormed([]) && Waiting(Fresh, [], 0)
  {
  }

  // ---- JSON5 strings ----

  /** What the gate is fed: raw bytes, and the backslash of each escape. */
  function Fed5(s: bytes, p: nat, e: nat, quote: byte): bytes
    requires p <= e <= |s|
    decreases e - p
  {
    if p == e || s[p] == quote then []
    else
      match Unit5(s, p, e)
      case Fail(_) => []
      case Ok(_, n) => [s[p]] + Fed5(s, n, e, quote)
  }

  /** From p on, the gate ignores a control byte that stands in a continuation slot. */
  predicate Skips5(ck: Checker, s: bytes, p: nat, e: nat, quote: byte)
    requires p <= e <= |s|
    decreases e - p
  {
    && p < e && s[p] != quote && ck.code.None?
    && (|| (s[p] < 0x20 && ck.need > 0)
        || (Unit5(s, p, e).Ok? && Skips5(Feed(ck, s[p], p), s, Unit5(s, p, e).next, e, quote)))
  }

  ghost predicate Gated5(s: bytes, p: nat, e: nat, quote: byte, ck: Checker, acc: bytes, part: bytes)
    requires p <= e <= |s|
  {
    var a, l := Decode5(true, s, p, e, quote, ck, acc), Decode5(false, s, p, e, quote, Fresh, acc);
    && (a.Ok? ==> a == l)
    && (l.Ok? ==> (WellFormed(part + Fed5(s, p, e, quote)) <==> a.Ok? && !Skips5(ck, s, p, e, quote)))
  }

  lemma {:induction false} Gate5(s: bytes, p: nat, e: nat, quote: byte, ck: Checker, acc: bytes, part: bytes)
    requires p <= e <= |s| && quote >= 0x20 && Waiting(ck, part, p)
    ensures Gated5(s, p, e, quote, ck, acc, part)
    decreases e - p
  {
    hide CharLen, Decode5, WellFormedFrom, Feed, Unit5;
    Decode5Is(true, s, p, e, quote, ck, acc);
    Decode5Is(false, s, p, e, quote, Fresh, acc);
    if p < e && s[p] == quote {
      GateQuote5(ck, part, p);
    } else if p < e && Unit5(s, p, e).Ok? {
      var u := Unit5(s, p, e);
      var c, k, y := s[p], Feed(ck, s[p], p), Fed5(s, u.next, e, quote);
      assert part + ([c] + y) == part + [c] + y;
      FirstChar(part + [c] + y, |part| + 1);
      if c < 0x20 && ck.need > 0 {
        TornByte(ck, part, p, c, y);
        FirstChar(part + [c] + y, 0);
        SkipKeepsLax(s, p, e, quote, ck, acc);
      } else {
        AnyByte(ck, part, p, c, y);
        if k.code.None? {
          Jump(s, p, e, ck, part);
          if k.need > 0 {
            Gate5(s, u.next, e, quote, k, acc + u.value, part + [c]);
          } else {
            assert (part + [c] + y)[|part| + 1..] == y == [] + y;
            Gate5(s, u.next, e, quote, k, acc + u.value, []);
          }
        }
      }
    }
  }

  lemma GateQuote5(ck: Checker, part: bytes, p: nat)
    requires Waiting(ck, part, p)
    ensures WellFormed(part + []) <==> End(ck).code.None?
  {
    assert part + [] == part;
    if part != [] {
      CutShort(ck, part, p);
      FirstChar(part, 0);
    }
  }

  /** Inside a character only plain bytes go on, so positions stay contiguous. */
  lemma Jump(s: bytes, p: nat, e: nat, ck: Checker, part: bytes)
    requires p < e <= |s| && Waiting(ck, part, p) && Unit5(s, p, e).Ok? && Feed(ck, s[p], p).code.None?
    requires s[p] >= 0x20 || ck.need == 0
    ensures Feed(ck, s[p], p).need > 0 ==> Unit5(s, p, e).next == p + 1
  {
    hide Escape5;
  }

  lemma {:induction false} SkipKeepsLax(s: bytes, p: nat, e: nat, quote: byte, ck: Checker, acc: bytes)
    requires p <= e <= |s|
    ensures var a := Decode5(true, s, p, e, quote, ck, acc); a.Ok? ==> a == Decode5(false, s, p, e, quote, Fresh, acc)
    decreases e - p
  {
    hide Decode5, Unit5, Feed, End;
    Decode5Is(true, s, p, e, quote, ck, acc);
    Decode5Is(false, s, p, e, quote, Fresh, acc);
    if p < e && s[p] != quote && Unit5(s, p, e).Ok? {
      var u := Unit5(s, p, e);
      SkipKeepsLax(s, u.next, e, quote, Feed(ck, s[p], p), acc + u.value);
    }
  }

  lemma {:induction false} AsciiFits(t: bytes)
    requires forall i :: 0 <= i < |t| ==> t[i] < 0x80
    ensures WellFormed(t)
    decreases |t|
  {
    if t != [] {
      AsciiFits(t[1..]);
      FirstChar(t, 1);
    }
  }

  /** A cut in front of a byte that is no tail separates well-formed text from well-formed text. */
  lemma {:induction false} CutsAt(x: bytes, y: bytes)
    requires y == [] || !IsTail(y[0])
    ensures WellFormed(x + y) <==> WellFormed(x) && WellFormed(y)
    decreases |x|
  {
    hide CharLen;
    if x == [] {
      assert x + y == y;
    } else {
      var n := CharLen(x, 0);
      FirstChar(x, n);
      if n > 0 {
        CharLenLonger(x, y);
        FirstChar(x + y, n);
        assert (x + y)[n..] == x[n..] + y;
        CutsAt(x[n..], y);
      } else {
        CutTears(x, y);
        FirstChar(x + y, 0);
      }
    }
  }

  lemma CutTears(x: bytes, y: bytes)
    requires |x| > 0 && CharLen(x, 0) == 0 && (y == [] || !IsTail(y[0]))
    ensures CharLen(x + y, 0) == 0
  {
    assert (x + y)[0] == x[0];
    if y != [] { assert (x + y)[|x|] == y[0]; } else { assert x + y == x; }
    if |x| > 1 { assert (x + y)[1] == x[1]; }
    if |x| > 2 { assert (x + y)[2] == x[2]; }
    if |x| > 3 { assert (x + y)[3] == x[3]; }
  }

  // ---- what the gate reads: every run of raw bytes on its own ----

  /** Every run of raw bytes between escapes is well-formed; run is the one in progress at p. */
  predicate RawRunsFit(s: bytes, p: nat, e: nat, quote: byte, run: bytes)
    requires p <= e <= |s|
    decreases e - p
  {
    if p == e || s[p] == quote then WellFormed(run)
    else
      match Unit5(s, p, e)
      case Fail(_) => WellFormed(run)
      case Ok(_, n) =>
        if s[p] == BACKSLASH then WellFormed(run) && RawRunsFit(s, n, e, quote, [])
        else RawRunsFit(s, n, e, quote, run + [s[p]])
  }

  /** Every run of adjacent escapes decodes to well-formed bytes; run is the one in progress at p. */
  predicate EscapeRunsFit(s: bytes, p: nat, e: nat, quote: byte, run: bytes)
    requires p <= e <= |s|
    decreases e - p
  {
    if p == e || s[p] == quote then WellFormed(run)
    else
      match Unit5(s, p, e)
      case Fail(_) => WellFormed(run)
      case Ok(t, n) =>
        if s[p] == BACKSLASH then EscapeRunsFit(s, n, e, quote, run + t)
        else WellFormed(run) && EscapeRunsFit(s, n, e, quote, [])
  }

  lemma {:induction false} FedInRuns(s: bytes, p: nat, e: nat, quote: byte, run: bytes)
    requires p <= e <= |s|
    ensures WellFormed(run + Fed5(s, p, e, quote)) <==> RawRunsFit(s, p, e, quote, run)
    decreases e - p
  {
    hide Unit5, WellFormedFrom;
    if p == e || s[p] == quote || Unit5(s, p, e).Fail? {
      assert run + [] == run;
    } else {
      var n := Unit5(s, p, e).next;
      var y := Fed5(s, n, e, quote);
      if s[p] == BACKSLASH {
        FedInRuns(s, n, e, quote, []);
        assert [] + y == y;
        CutsAt(run, [BACKSLASH] + y);
        AsciiFits([BACKSLASH]);
        PrefixDrops([BACKSLASH], y);
      } else {
        FedInRuns(s, n, e, quote, run + [s[p]]);
        assert run + ([s[p]] + y) == run + [s[p]] + y;
      }
    }
  }

  // ---- the decoded value ----

  function Text5(s: bytes, p: nat, e: nat, quote: byte): bytes
    requires p <= e <= |s|
    decreases e - p
  {
    if p == e || s[p] == quote then []
    else
      match Unit5(s, p, e)
      case Fail(_) => []
      case Ok(t, n) => t + Text5(s, n, e, quote)
  }

  lemma {:induction false} LaxText(s: bytes, p: nat, e: nat, quote: byte, acc: bytes)
    requires p <= e <= |s|
    ensures var l := Decode5(false, s, p, e, quote, Fresh, acc); l.Ok? ==> l.value == acc + Text5(s, p, e, quote)
    decreases e - p
  {
    hide Unit5, Decode5;
    Decode5Is(false, s, p, e, quote, Fresh, acc);
    if p < e && s[p] != quote && Unit5(s, p, e).Ok? {
      var u := Unit5(s, p, e);
      LaxText(s, u.next, e, quote, acc + u.value);
      assert acc + u.value + Text5(s, u.next, e, quote) == acc + (u.value + Text5(s, u.next, e, quote));
    }
  }

  /** What strict mode has accepted is well-formed when the escapes are and no control byte was skipped. */
  ghost predicate Delivered(s: bytes, p: nat, e: nat, quote: byte, ck: Checker, run: bytes, part: bytes)
    requires p <= e <= |s|
  {
    WellFormed(run + part + Text5(s, p, e, quote)) <==>
      !Skips5(ck, s, p, e, quote) && EscapeRunsFit(s, p, e, quote, run)
  }

  lemma {:induction false} ValueFits(s: bytes, p: nat, e: nat, quote: byte, ck: Checker, acc: bytes, run: bytes,
      part: bytes)
    requires p <= e <= |s| && quote >= 0x20 && Waiting(ck, part, p) && (part == [] || run == [])
    requires Decode5(true, s, p, e, quote, ck, acc).Ok?
    ensures Delivered(s, p, e, quote, ck, run, part)
    decreases e - p, 1
  {
    hide CharLen, Decode5, WellFormedFrom, Feed, Unit5;
    Decode5Is(true, s, p, e, quote, ck, acc);
    if s[p] == quote {
      CleanEnd(ck, part, p);
      assert run + part + [] == run;
    } else if s[p] == BACKSLASH {
      var u := Unit5(s, p, e);
      BackslashClean(ck, part, p);
      ValueFits(s, u.next, e, quote, ck, acc + u.value, run + u.value, []);
      assert run + part + (u.value + Text5(s, u.next, e, quote)) == run + u.value + [] + Text5(s, u.next, e, quote);
    } else {
      PlainFits(s, p, e, quote, ck, acc, run, part);
    }
  }

  lemma CleanEnd(ck: Checker, part: bytes, p: nat)
    requires Waiting(ck, part, p) && End(ck).code.None?
    ensures part == []
  {
  }

  lemma BackslashClean(ck: Checker, part: bytes, p: nat)
    requires Waiting(ck, part, p) && Feed(ck, BACKSLASH, p).code.None?
    ensures part == [] && Clean(ck) && Feed(ck, BACKSLASH, p) == ck && forall q :: Waiting(ck, [], q)
  {
  }

  lemma PlainUnit(s: bytes, p: nat, e: nat)
    requires p < e <= |s| && s[p] != BACKSLASH && Unit5(s, p, e).Ok?
    ensures Unit5(s, p, e) == Ok([s[p]], p + 1)
  {
  }

  lemma LeadIsNoTail(ck: Checker, c: byte, p: nat)
    requires Clean(ck) && Feed(ck, c, p).code.None?
    ensures !IsTail(c)
  {
  }

  lemma {:induction false} PlainFits(s: bytes, p: nat, e: nat, quote: byte, ck: Checker, acc: bytes, run: bytes,
      part: bytes)
    requires p < e <= |s| && quote >= 0x20 && Waiting(ck, part, p) && (part == [] || run == [])
    requires s[p] != quote && s[p] != BACKSLASH && Decode5(true, s, p, e, quote, ck, acc).Ok?
    ensures Delivered(s, p, e, quote, ck, run, part)
    decreases e - p, 0
  {
    hide CharLen, Decode5, WellFormedFrom, Feed, Unit5;
    Decode5Is(true, s, p, e, quote, ck, acc);
    PlainUnit(s, p, e);
    var c, k, y := s[p], Feed(ck, s[p], p), Text5(s, p + 1, e, quote);
    Nothing();
    if part == [] {
      assert run + part + ([c] + y) == run + ([c] + y);
    } else {
      assert run + part + ([c] + y) == part + [c] + y;
    }
    if c < 0x20 && ck.need > 0 {
      TornByte(ck, part, p, c, y);
      FirstChar(part + [c] + y, 0);
    } else {
      AnyByte(ck, part, p, c, y);
      FirstChar(part + [c] + y, |part| + 1);
      assert (part + [c] + y)[|part| + 1..] == y == [] + [] + y;
      assert part + [c] + y == [] + (part + [c]) + y;
      ValueFits(s, p + 1, e, quote, k, acc + [c], [], if k.need > 0 then part + [c] else []);
      if part == [] {
        assert part + [c] + y == [c] + y;
        CleanPart(ck, part, p);
        LeadIsNoTail(ck, c, p);
        CutsAt(run, [c] + y);
      }
    }
  }

  lemma CleanPart(ck: Checker, part: bytes, p: nat)
    requires Waiting(ck, part, p)
    ensures part == [] <==> Clean(ck)
  {
  }

  /**
   In JSON5 mode strict_utf8 checks every run of raw bytes between escapes on its own, and skips a control byte inside
   a character. Of what it accepts, the value is well-formed exactly when in addition every run of adjacent escapes
   decodes to well-formed bytes and no control byte was skipped; of the well-formed values it refuses exactly those
   with a character put together from raw bytes and an escape, or broken by a line continuation.
   */
  lemma StrictValue5(b: Input, p: nat, quote: byte)
    requires p < b.end && quote >= 0x20
    ensures var strict := ParseString5(true, b, p, quote); var lax := ParseString5(false, b, p, quote);
      var raw := RawRunsFit(b.buf, p + 1, b.end, quote, []); var skips := Skips5(Fresh, b.buf, p + 1, b.end, quote);
      && (strict.Ok? ==> strict == lax)
      && (lax.Ok? ==> (strict.Ok? && !skips <==> raw))
      && (strict.Ok? ==> (WellFormed(lax.value) <==> EscapeRunsFit(b.buf, p + 1, b.end, quote, []) && !skips))
      && (lax.Ok? && WellFormed(lax.value) ==> (strict.Ok? <==> raw))
  {
    hide Decode5, WellFormedFrom, Skips5, Fed5, RawRunsFit, EscapeRunsFit, Text5;
    Nothing();
    Gate5(b.buf, p + 1, b.end, quote, Fresh, [], []);
    assert [] + Fed5(b.buf, p + 1, b.end, quote) == Fed5(b.buf, p + 1, b.end, quote);
    FedInRuns(b.buf, p + 1, b.end, quote, []);
    LaxText(b.buf, p + 1, b.end, quote, []);
    var none: bytes := [];
    assert none + none + Text5(b.buf, p + 1, b.end, quote) == none + Text5(b.buf, p + 1, b.end, quote);
    if ParseString5(true, b, p, quote).Ok? { ValueFits(b.buf, p + 1, b.end, quote, Fresh, [], none, none); }
  }

  // ---- the text between the quotes ----

  /** The escape at p takes no byte of a multi-byte character, a line continuation apart. */
  predicate Narrow(s: bytes, p: nat, e: nat)
    requires p < e <= |s|
  {
    p + 1 < e ==> s[p + 1] < 0x80 || IsLineSeparator(s, p + 1, e)
  }

  predicate NarrowEscapes(s: bytes, p: nat, e: nat, quote: byte)
    requires p <= e <= |s|
    decreases e - p
  {
    p == e || s[p] == quote || Unit5(s, p, e).Fail?
    || ((s[p] == BACKSLASH ==> Narrow(s, p, e)) && NarrowEscapes(s, Unit5(s, p, e).next, e, quote))
  }

  /** A narrow escape is well-formed text. */
  lemma NarrowFits(s: bytes, p: nat, e: nat)
    requires p < e <= |s| && s[p] == BACKSLASH && Escape5(s, p, e).Ok? && Narrow(s, p, e)
    ensures var t := s[p + 1..Escape5(s, p, e).next]; WellFormed(t) && t != [] && t[0] == s[p + 1]
  {
    var n := Escape5(s, p, e).next;
    var t := s[p + 1..n];
    if IsLineSeparator(s, p + 1, e) {
      assert t == [0xE2, 0x80, s[p + 3]];
      Complete(t);
    } else {
      EscapeIsAscii(s, p, e);
      AsciiFits(t);
    }
  }

  lemma HexIsAscii(s: bytes, p: nat, e: nat)
    requires e <= |s| && Hex4Bounded(s, p, e).Ok?
    ensures p + 4 <= e && Hex4Bounded(s, p, e).next == p + 4
    ensures s[p] < 0x80 && s[p + 1] < 0x80 && s[p + 2] < 0x80 && s[p + 3] < 0x80
  {
  }

  lemma EscapeIsAscii(s: bytes, p: nat, e: nat)
    requires p < e <= |s| && s[p] == BACKSLASH && Escape5(s, p, e).Ok? && Narrow(s, p, e) &&
      !IsLineSeparator(s, p + 1, e)
    ensures forall i :: p <= i < Escape5(s, p, e).next ==> s[i] < 0x80
  {
    hide Hex4Bounded, EncodeUtf8, JoinPair, ShortEscape5;
    if s[p + 1] == LOWER_U {
      HexIsAscii(s, p + 2, e);
      if Hex4Bounded(s, p + 8, e).Ok? { HexIsAscii(s, p + 8, e); }
    }
  }

  lemma SliceApart(s: bytes, p: nat, n: nat, m: nat)
    requires p < n <= m <= |s|
    ensures s[p..m] == [s[p]] + (s[p + 1..n] + s[n..m])
  {
  }

  /** Under narrow escapes, what the gate is fed is as well-formed as the text. */
  lemma {:induction false} RawIsFed(s: bytes, p: nat, e: nat, quote: byte, acc: bytes, m: nat, x: bytes)
    requires p <= e <= |s| && p <= m < |s| && NarrowEscapes(s, p, e, quote)
    requires Decode5(false, s, p, e, quote, Fresh, acc).Ok? && Decode5(false, s, p, e, quote, Fresh, acc).next == m + 1
    ensures WellFormed(x + Fed5(s, p, e, quote)) <==> WellFormed(x + s[p..m])
    decreases e - p
  {
    hide Unit5, WellFormedFrom, Decode5, CharLen;
    Decode5Is(false, s, p, e, quote, Fresh, acc);
    if s[p] == quote {
      assert s[p..m] == Fed5(s, p, e, quote);
    } else {
      var u := Unit5(s, p, e);
      var y, z := Fed5(s, u.next, e, quote), s[u.next..m];
      if s[p] == BACKSLASH {
        RawIsFed(s, u.next, e, quote, acc + u.value, m, []);
        assert [] + y == y && [] + z == z;
        NarrowUnit(s, p, e);
        SliceApart(s, p, u.next, m);
        assert Fed5(s, p, e, quote) == [BACKSLASH] + y;
        EscapeCuts(x, s[p + 1..u.next], y, z);
      } else {
        PlainUnit(s, p, e);
        RawIsFed(s, p + 1, e, quote, acc + u.value, m, x + [s[p]]);
        assert x + ([s[p]] + y) == x + [s[p]] + y;
        assert x + s[p..m] == x + [s[p]] + z;
      }
    }
  }

  lemma EscapeCuts(x: bytes, t: bytes, y: bytes, z: bytes)
    requires WellFormed(t) && (WellFormed(y) <==> WellFormed(z))
    ensures WellFormed(x + ([BACKSLASH] + y)) <==> WellFormed(x + ([BACKSLASH] + (t + z)))
  {
    hide WellFormedFrom;
    CutsAt(x, [BACKSLASH] + y);
    CutsAt(x, [BACKSLASH] + (t + z));
    AsciiFits([BACKSLASH]);
    PrefixDrops([BACKSLASH], y);
    PrefixDrops([BACKSLASH], t + z);
    PrefixDrops(t, z);
  }

  lemma NarrowUnit(s: bytes, p: nat, e: nat)
    requires p < e <= |s| && s[p] == BACKSLASH && Unit5(s, p, e).Ok? && Narrow(s, p, e)
    ensures WellFormed(s[p + 1..Unit5(s, p, e).next])
  {
    hide Escape5, WellFormed;
    NarrowFits(s, p, e);
  }

  /**
   A wide escape drops its byte from the gate: the character it starts continues with a tail the gate takes for a lead.
   */
  lemma WideFails(s: bytes, p: nat, e: nat, quote: byte, ck: Checker, acc: bytes, m: nat)
    requires p < e <= |s| && m < e && quote < 0x80 && s[p] == BACKSLASH && s[p] != quote && Clean(ck)
    requires Unit5(s, p, e).Ok? && Unit5(s, p, e).next <= m && !Narrow(s, p, e)
    requires WellFormed(s[p + 1..Unit5(s, p, e).next] + s[Unit5(s, p, e).next..m])
    ensures Decode5(true, s, p, e, quote, ck, acc).Fail?
  {
    hide Decode5, EncodeUtf8, JoinPair, Hex4Bounded, UnicodeEscape5;
    var u := Unit5(s, p, e);
    Decode5Is(true, s, p, e, quote, ck, acc);
    Decode5Is(true, s, p + 2, e, quote, ck, acc + u.value);
    assert u.next == p + 2;
    var t := s[p + 1..p + 2] + s[p + 2..m];
    assert t[0] == s[p + 1];
    FirstChar(t, 0);
    assert |t| >= 2 && IsTail(t[1]);
    assert t[1] == s[p + 2];
  }

  lemma {:induction false} WideRefused(s: bytes, p: nat, e: nat, quote: byte, ck: Checker, acc: bytes, m: nat,
      part: bytes)
    requires p <= m < e <= |s| && 0x20 <= quote < 0x80 && Waiting(ck, part, p) && !NarrowEscapes(s, p, e, quote)
    requires Decode5(false, s, p, e, quote, Fresh, acc).Ok? && Decode5(false, s, p, e, quote, Fresh, acc).next == m + 1
    requires WellFormed(part + s[p..m])
    ensures Decode5(true, s, p, e, quote, ck, acc).Fail?
    decreases e - p, 1
  {
    hide Unit5, WellFormedFrom, Decode5, CharLen, Feed, Waiting, Narrow;
    Decode5Is(true, s, p, e, quote, ck, acc);
    Decode5Is(false, s, p, e, quote, Fresh, acc);
    var u := Unit5(s, p, e);
    if s[p] != BACKSLASH {
      PlainUnit(s, p, e);
      WidePlain(s, p, e, quote, ck, acc, m, part);
    } else if Feed(ck, BACKSLASH, p).code.None? {
      BackslashClean(ck, part, p);
      var z := s[u.next..m];
      SliceApart(s, p, u.next, m);
      assert part + s[p..m] == [BACKSLASH] + (s[p + 1..u.next] + z);
      AsciiFits([BACKSLASH]);
      PrefixDrops([BACKSLASH], s[p + 1..u.next] + z);
      if Narrow(s, p, e) {
        NarrowUnit(s, p, e);
        PrefixDrops(s[p + 1..u.next], z);
        assert [] + z == z;
        WideRefused(s, u.next, e, quote, ck, acc + u.value, m, []);
      } else {
        WideFails(s, p, e, quote, ck, acc, m);
      }
    }
  }

  lemma {:induction false} WidePlain(s: bytes, p: nat, e: nat, quote: byte, ck: Checker, acc: bytes, m: nat,
      part: bytes)
    requires p < m < e <= |s| && 0x20 <= quote < 0x80 && Waiting(ck, part, p) && !NarrowEscapes(s, p + 1, e, quote)
    requires s[p] != quote && s[p] != BACKSLASH && Unit5(s, p, e) == Ok([s[p]], p + 1)
    requires Decode5(false, s, p, e, quote, Fresh, acc).Ok? && Decode5(false, s, p, e, quote, Fresh, acc).next == m + 1
    requires WellFormed(part + s[p..m])
    ensures Decode5(true, s, p, e, quote, ck, acc).Fail?
    decreases e - p, 0
  {
    hide Unit5, WellFormedFrom, Decode5, CharLen, Feed, NarrowEscapes;
    Decode5Is(true, s, p, e, quote, ck, acc);
    Decode5Is(false, s, p, e, quote, Fresh, acc);
    var c, k, z := s[p], Feed(ck, s[p], p), s[p + 1..m];
    assert part + s[p..m] == part + [c] + z;
    if c < 0x20 && ck.need > 0 {
      TornByte(ck, part, p, c, z);
      FirstChar(part + [c] + z, 0);
    } else if k.code.None? {
      AnyByte(ck, part, p, c, z);
      FirstChar(part + [c] + z, |part| + 1);
      assert (part + [c] + z)[|part| + 1..] == z == [] + z;
      WideRefused(s, p + 1, e, quote, k, acc + [c], m, if k.need > 0 then part + [c] else []);
    }
  }

  /**
   In JSON5 mode, against the text between the quotes: strict_utf8 refuses a well-formed text exactly when an escape
   takes the first byte of a multi-byte character, and what it accepts is well-formed exactly when no escape does and
   no control byte, which JSON5 strings may hold, stands in a continuation slot.
   */
  lemma StrictText5(b: Input, p: nat, quote: byte)
    requires p < b.end && 0x20 <= quote < 0x80
    ensures var strict := ParseString5(true, b, p, quote); var lax := ParseString5(false, b, p, quote);
      var narrow := NarrowEscapes(b.buf, p + 1, b.end, quote); var skips := Skips5(Fresh, b.buf, p + 1, b.end, quote);
      lax.Ok? ==>
        var fits := WellFormed(b.buf[p + 1..lax.next - 1]);
        && (fits ==> (strict.Ok? <==> narrow))
        && (strict.Ok? ==> (fits <==> narrow && !skips))
  {
    hide Decode5, WellFormedFrom, Skips5, Fed5, NarrowEscapes;
    var s, e, none: bytes := b.buf, b.end, [];
    var lax := ParseString5(false, b, p, quote);
    Nothing();
    if lax.Ok? {
      var m := lax.next - 1;
      assert none + s[p + 1..m] == s[p + 1..m] && none + Fed5(s, p + 1, e, quote) == Fed5(s, p + 1, e, quote);
      if NarrowEscapes(s, p + 1, e, quote) {
        Gate5(s, p + 1, e, quote, Fresh, none, none);
        RawIsFed(s, p + 1, e, quote, none, m, none);
      } else if WellFormed(s[p + 1..m]) {
        WideRefused(s, p + 1, e, quote, Fresh, none, m, none);
      }
    }
  }

  // ---- the failing inputs ----

  lemma Escaped5(strict: bool, s: bytes, p: nat, e: nat, acc: bytes)
    requires p + 1 < e <= |s| && s[p] == BACKSLASH && s[p + 1] >= 0x80 && !IsLineSeparator(s, p + 1, e)
    ensures Decode5(strict, s, p, e, QUOTE, Fresh, acc) == Decode5(strict, s, p + 2, e, QUOTE, Fresh, acc + [s[p + 1]])
  {
    hide Decode5;
    Decode5Is(strict, s, p, e, QUOTE, Fresh, acc);
  }

  /** An escaped lead byte: text and value are well-formed, and strict mode refuses the string. */
  lemma WideEscapeRefused()
    ensures var s: bytes := [QUOTE, BACKSLASH, 0xC3, 0xA9, QUOTE];
      && ParseString5(true, Whole(s), 0, QUOTE) == Fail(Positioned(Utf8InvalidLead, 3))
      && ParseString5(false, Whole(s), 0, QUOTE) == Ok([0xC3, 0xA9], 5)
      && WellFormed(s[1..4]) && WellFormed([0xC3, 0xA9])
  {
    hide Decode5;
    var s: bytes := [QUOTE, BACKSLASH, 0xC3, 0xA9, QUOTE];
    var v0: bytes, v1: bytes, v2: bytes := [], [0xC3], [0xC3, 0xA9];
    assert v0 + [s[2]] == v1 && v1 + [s[3]] == v2;
    Escaped5(true, s, 1, 5, v0);
    Escaped5(false, s, 1, 5, v0);
    Decode5Is(true, s, 3, 5, QUOTE, Fresh, v1);
    Decode5Is(false, s, 3, 5, QUOTE, Fresh, v1);
    Decode5Is(false, s, 4, 5, QUOTE, Fresh, v2);
    Complete(v2);
    AsciiFits([BACKSLASH]);
    PrefixDrops([BACKSLASH], v2);
    assert s[1..4] == [BACKSLASH] + v2;
  }

  /** An escaped byte that is in no character: text and value are ill-formed, and strict mode passes the string. */
  lemma WideEscapePasses()
    ensures var s: bytes := [QUOTE, BACKSLASH, 0xFF, QUOTE];
      && ParseString5(true, Whole(s), 0, QUOTE) == Ok([0xFF], 4)
      && !WellFormed(s[1..3]) && !WellFormed([0xFF])
  {
    hide Decode5;
    var s: bytes := [QUOTE, BACKSLASH, 0xFF, QUOTE];
    var v0: bytes, v1: bytes := [], [0xFF];
    assert v0 + [s[2]] == v1;
    Escaped5(true, s, 1, 4, v0);
    Decode5Is(true, s, 3, 4, QUOTE, Fresh, v1);
    assert CharLen(v1, 0) == 0;
    AsciiFits([BACKSLASH]);
    PrefixDrops([BACKSLASH], v1);
    assert s[1..3] == [BACKSLASH] + v1;
  }

  /** A line continuation inside a character: the value is well-formed, and strict mode refuses the string. */
  lemma ContinuationRefused()
    ensures var s: bytes := [QUOTE, 0xC3, BACKSLASH, LF, 0xA9, QUOTE];
      && ParseString5(true, Whole(s), 0, QUOTE) == Fail(Positioned(Utf8InvalidContinuation, 2))
      && ParseString5(false, Whole(s), 0, QUOTE) == Ok([0xC3, 0xA9], 6) && WellFormed([0xC3, 0xA9])
  {
    hide Decode5;
    var s: bytes := [QUOTE, 0xC3, BACKSLASH, LF, 0xA9, QUOTE];
    var v0: bytes, v1: bytes, v2: bytes := [], [0xC3], [0xC3, 0xA9];
    var none: bytes := [];
    assert v0 + [s[1]] == v1 && v1 + none == v1 && v1 + [s[4]] == v2;
    Decode5Is(true, s, 1, 6, QUOTE, Fresh, v0);
    Decode5Is(true, s, 2, 6, QUOTE, Feed(Fresh, 0xC3, 1), v1);
    Decode5Is(false, s, 1, 6, QUOTE, Fresh, v0);
    Decode5Is(false, s, 2, 6, QUOTE, Fresh, v1);
    Decode5Is(false, s, 4, 6, QUOTE, Fresh, v1);
    Decode5Is(false, s, 5, 6, QUOTE, Fresh, v2);
    Complete(v2);
  }

  /** A control byte in a continuation slot: the value is ill-formed, and strict mode passes the string. */
  lemma Json5LetsIllFormedThrough()
    ensures var s: bytes := [QUOTE, 0xE0, 0x01, 0x80, 0x80, QUOTE];
      ParseString5(true, Whole(s), 0, QUOTE) == Ok([0xE0, 0x01, 0x80, 0x80], 6) && !WellFormed([0xE0, 0x01, 0x80, 0x80])
  {
    var s: bytes := [QUOTE, 0xE0, 0x01, 0x80, 0x80, QUOTE];
    var c1 := Feed(Fresh, s[1], 1);
    var c2 := Feed(c1, s[2], 2);
    var c3 := Feed(c2, s[3], 3);
    var c4 := Feed(c3, s[4], 4);
    assert c4.code.None? && c4.need == 0;
    hide Decode5;
    var v0: bytes, v1: bytes, v2: bytes, v3: bytes, v4: bytes := [], [0xE0], [0xE0, 0x01], [0xE0, 0x01, 0x80],
      [0xE0, 0x01, 0x80, 0x80];
    assert v0 + [s[1]] == v1 && v1 + [s[2]] == v2 && v2 + [s[3]] == v3 && v3 + [s[4]] == v4;
    Plain5(s, 1, 6, Fresh, v0);
    Plain5(s, 2, 6, c1, v1);
    Plain5(s, 3, 6, c2, v2);
    Plain5(s, 4, 6, c3, v3);
    Decode5Is(true, s, 5, 6, QUOTE, c4, v4);
    assert CharLen(v4, 0) == 0;
  }

  lemma Plain5(s: bytes, p: nat, e: nat, ck: Checker, acc: bytes)
    requires p < e <= |s| && s[p] != QUOTE && s[p] != BACKSLASH && s[p] != LF && s[p] != CR &&
      Feed(ck, s[p], p).code.None?
    ensures Decode5(true, s, p, e, QUOTE, ck, acc) == Decode5(true, s, p + 1, e, QUOTE, Feed(ck, s[p], p), acc + [s[p]])
  {
    hide Decode5, Feed;
    Decode5Is(true, s, p, e, QUOTE, ck, acc);
  }
}
