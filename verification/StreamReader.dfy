/**
 The incremental reader over a sliding window that is refilled chunk by chunk. Every pull returns what the machine over
 the whole stream returns, so events, errors and offsets do not depend on the chunk size.
 */
module StreamReader {
  import opened Core
  import opened Grammar
  import opened Utf8
  import opened Strings
  import opened Numbers
  import opened InPlace
  import opened Json5Lexer
  import opened ParserSpec
  import opened StreamSpec
  import opened StreamNumbers

  const STRING_DECODE_PADDING: nat := 16

  // ---- decoding a buffered token ----

  /** The decode loop over the token buffer: destination at or below source, checker fed in stream order. */
  method DecodeTokenInPlace(buf: array<byte>, n: nat, strict: bool, ghost t: bytes) returns (r: Parsed<nat>)
    requires n == |t| && buf.Length == n + STRING_DECODE_PADDING && Unread(buf, 0, t, STRING_DECODE_PADDING, 0)
    modifies buf
    ensures match DecodeToken(strict, t, 0, Fresh, [])
      case Fail(e) => r == Fail(e)
      case Ok(v, _) => r.Ok? && r.value <= n && buf[..r.value] == v
  {
    hide Unit, Feed, End;
    var ck := new Utf8Checker();
    var dst: nat, src: nat := 0, 0;
    ghost var spec := DecodeToken(strict, t, 0, Fresh, []);
    while src < n
      invariant dst <= src <= n && Unread(buf, 0, t, STRING_DECODE_PADDING, src)
      invariant ck.code.None? && fresh(ck)
      invariant spec == DecodeToken(strict, t, src, ck.State(), buf[0..dst])
    {
      if strict {
        ck.FeedByte(buf[src], src);
        if ck.code.Some? {
          return Fail(Positioned(ck.code.value, ck.err));
        }
      }
      var x := DecodeTokenUnit(buf, dst, src, t);
      if x.Fail? {
        return Fail(x.error);
      }
      dst, src := x.value, x.next;
    }
    if strict {
      ck.Finish();
      if ck.code.Some? {
        return Fail(Positioned(ck.code.value, ck.err));
      }
    }
    assert buf[0..dst] == buf[..dst];
    return Ok(dst, n);
  }

  method DecodeTokenUnit(buf: array<byte>, dst: nat, src: nat, ghost t: bytes) returns (r: Parsed<nat>)
    requires dst <= src < |t| && Unread(buf, 0, t, STRING_DECODE_PADDING, src)
    modifies buf
    ensures match Unit(t, src)
      case Fail(e) => r == Fail(e)
      case Ok(u, m) =>
        r == Ok(dst + |u|, m) && dst + |u| <= m && buf[0..dst + |u|] == old(buf[0..dst]) + u
        && Unread(buf, 0, t, STRING_DECODE_PADDING, m)
  {
    var c := buf[src];
    if c == BACKSLASH {
      r := HandleEscape(buf, 0, 0, dst, src, t, STRING_DECODE_PADDING);
    } else if c < 0x20 {
      r := Fail(Positioned(UnescapedControl, src));
    } else {
      Append(buf, 0, 0, dst, [c]);
      r := Ok(dst + 1, src + 1);
    }
  }

  /** What parse_string_token does once the closing quote is found. */
  method TokenResult(token: bytes, hasEscape: bool, firstControl: Option<nat>, strict: bool) returns (r: Parsed<bytes>)
    requires hasEscape == HasEscape(token)
    requires !hasEscape ==> firstControl == ControlIn(token)
    ensures r == TokenValue(strict, token)
  {
    if !hasEscape {
      if firstControl.Some? {
        return Fail(Positioned(UnescapedControl, firstControl.value));
      }
      if strict {
        var ck := new Utf8Checker();
        ck.FeedRun(token, 0, |token|);
        ck.Finish();
        if ck.code.Some? {
          return Fail(Positioned(ck.code.value, ck.err));
        }
      }
      return Ok(token, |token|);
    }
    var n := |token|;
    var buf := new byte[n + STRING_DECODE_PADDING](i => if 0 <= i < n then token[i] else 0);
    var d := DecodeTokenInPlace(buf, n, strict, token);
    if d.Fail? {
      return Fail(d.error);
    }
    return Ok(buf[..d.value], n);
  }

  function ControlIn(t: bytes): Option<nat> {
    var k := FirstControl(t, 0);
    if k < |t| then Some(k) else None
  }

  lemma {:induction false} FirstControlSnoc(t: bytes, i: nat, c: byte)
    requires i <= |t|
    ensures FirstControl(t + [c], i) == if FirstControl(t, i) < |t| then FirstControl(t, i) else if c < 0x20 then |t|
      else |t| + 1
    decreases |t| - i
  {
    if i < |t| {
      assert (t + [c])[i] == t[i];
      if t[i] >= 0x20 { FirstControlSnoc(t, i + 1, c); }
    }
  }

  // ---- the reader ----

  class StreamReader {
    const cfg: Config
    const mode: StreamMode
    const chunk: nat
    const input: bytes        // what the device delivers
    var taken: nat            // bytes the device has delivered
    var buf: bytes            // window storage; [pos, len) is unconsumed
    var pos: nat
    var len: nat
    var absBase: nat
    var eof: bool
    var stack: seq<Frame>
    var rootDone: bool
    var finished: bool
    var startChecked: bool
    var error: Option<Error>

    /** The window is the unread slice of the stream at the absolute position. */
    ghost predicate WindowOk()
      reads `taken, `buf, `pos, `len, `absBase, `eof
    {
      && chunk >= 1 && pos <= len <= |buf| && absBase + len == taken <= |input|
      && (forall i :: pos <= i < len ==> buf[i] == input[absBase + i])
      && (eof ==> taken == |input|)
    }

    ghost predicate Valid()
      reads this
    {
      WindowOk() && (!startChecked ==> Offset() == 0 && stack == [] && !rootDone && !finished && error.None?)
    }

    /** abs(). */
    function Offset(): nat
      reads `absBase, `pos
    {
      absBase + pos
    }

    /** The machine state this reader stands for. */
    ghost function Abstract(): State
      reads this
    {
      if startChecked then State(Offset(), stack, rootDone, finished, error) else Start(cfg, input)
    }

    constructor (input: bytes, mode: StreamMode, chunkSize: nat, cfg: Config)
      ensures Valid() && this.input == input && this.mode == mode && this.cfg == cfg && Abstract() == Start(cfg, input)
    {
      this.input, this.mode, this.cfg := input, mode, cfg;
      this.chunk := if chunkSize == 0 then 1 else chunkSize;
      taken, buf, pos, len, absBase, eof := 0, [], 0, 0, 0, false;
      stack, rootDone, finished, startChecked, error := [], false, false, false, None;
    }

    /** Reached the machine state r; after an error only the error is compared. */
    ghost predicate Reached(r: State)
      reads this
    {
      startChecked && error == r.error && (error.None? ==> Abstract() == r)
    }

    /** Move the unconsumed bytes to the front. */
    method Compact()
      requires WindowOk()
      modifies `buf, `pos, `len, `absBase
      ensures WindowOk() && Offset() == old(Offset()) && pos == 0 && len == old(len) - old(pos)
    {
      if pos != 0 {
        buf := buf[pos..len] + buf[len - pos..];
        absBase := absBase + pos;
        len := len - pos;
        pos := 0;
      }
    }

    /** Compact the window to the front, then append one chunk. A short read is the end of the stream. */
    method Fill()
      requires WindowOk() && error.None?
      modifies `buf, `pos, `len, `absBase, `taken, `eof
      ensures WindowOk() && Offset() == old(Offset())
      ensures old(eof) ==> eof && len - pos == old(len) - old(pos)
      ensures !old(eof) ==> taken >= old(taken) && (eof || taken > old(taken))
      ensures len - pos >= old(len) - old(pos)
    {
      if eof {
        return;
      }
      Compact();
      var need := len + chunk;
      if |buf| < need {
        buf := buf + seq(need - |buf|, _ => 0);
      }
      var got := if |input| - taken < chunk then |input| - taken else chunk;
      buf := buf[..len] + input[taken..taken + got] + buf[len + got..];
      len := len + got;
      taken := taken + got;
      if got < chunk {
        eof := true;
      }
    }

    method Ensure(n: nat) returns (ok: bool)
      requires WindowOk() && error.None?
      modifies `buf, `pos, `len, `absBase, `taken, `eof
      ensures WindowOk() && Offset() == old(Offset())
      ensures ok == (len - pos >= n) && ok == (Offset() + n <= |input|)
    {
      while len - pos < n && !eof
        invariant WindowOk() && Offset() == old(Offset())
        decreases !eof, |input| - taken
      {
        Fill();
      }
      ok := len - pos >= n;
    }

    method SkipWhitespace()
      requires WindowOk() && error.None?
      modifies `buf, `pos, `len, `absBase, `taken, `eof
      ensures WindowOk() && Offset() == SkipWs(input, old(Offset()))
      ensures len == pos <==> Offset() == |input|
    {
      while true
        invariant WindowOk() && Offset() <= |input| && SkipWs(input, Offset()) == SkipWs(input, old(Offset()))
        decreases |input| - Offset(), !eof, |input| - taken
      {
        if len == pos {
          if eof {
            return;
          }
          Fill();
          continue;
        }
        if !IsWs(buf[pos]) {
          return;
        }
        pos := pos + 1;
      }
    }

    method SkipStartBom()
      requires Valid() && !startChecked
      modifies `buf, `pos, `len, `absBase, `taken, `eof, `startChecked
      ensures Valid() && startChecked && Abstract() == old(Abstract())
    {
      startChecked := true;
      if !cfg.stripBom {
        return;
      }
      var got := Ensure(3);
      if !got {
        return;
      }
      BomHere();
      if buf[pos] == 0xEF && buf[pos + 1] == 0xBB && buf[pos + 2] == 0xBF {
        pos := pos + 3;
      }
    }

    lemma BomHere()
      requires WindowOk() && Offset() == 0 && len - pos >= 3
      ensures LiteralAt(input, 0, |input|, BOM) <==> buf[pos] == 0xEF && buf[pos + 1] == 0xBB && buf[pos + 2] == 0xBF
    {
      assert input[0] == buf[pos] && input[1] == buf[pos + 1] && input[2] == buf[pos + 2];
      assert BOM[0] == 0xEF && BOM[1] == 0xBB && BOM[2] == 0xBF;
    }

    // ---- tokens ----

    /** Accumulate the raw string body across refills, up to its closing quote. */
    method ReadRaw() returns (closed: bool, token: bytes, hasEscape: bool, firstControl: Option<nat>)
      requires WindowOk() && error.None?
      modifies `buf, `pos, `len, `absBase, `taken, `eof
      ensures WindowOk()
      ensures var b := old(Offset()); var q := RawEnd(input, b);
        if closed then q < |input| && Offset() == q + 1 && token == input[b..q] else q == |input| == Offset()
      ensures closed ==> hasEscape == HasEscape(token) && (!hasEscape ==> firstControl == ControlIn(token))
    {
      hide HasEscape, ControlIn, RawEnd, RawRest;
      ghost var b := Offset();
      var escaped := false;
      NothingRaw(input, b);
      token, hasEscape, firstControl := [], false, None;
      while true
        invariant WindowOk() && b <= Offset() <= |input| && token == input[b..Offset()]
        invariant RawEnd(input, b) == RawRest(input, Offset(), escaped)
        invariant hasEscape == HasEscape(token) && (escaped ==> hasEscape)
        invariant !hasEscape ==> firstControl == ControlIn(token)
        decreases |input| - Offset(), !eof, |input| - taken
      {
        RawStops(input, Offset(), escaped);
        if len == pos {
          if eof {
            return false, token, hasEscape, firstControl;
          }
          Fill();
          continue;
        }
        var c := buf[pos];
        assert c == input[Offset()];
        if !escaped && c == QUOTE {
          pos := pos + 1;
          return true, token, hasEscape, firstControl;
        }
        RawByte(input, b, Offset(), escaped, token);
        pos := pos + 1;
        if !escaped && c != BACKSLASH && c < 0x20 && firstControl.None? {
          firstControl := Some(|token|);
        }
        hasEscape := hasEscape || (!escaped && c == BACKSLASH);
        escaped := !escaped && c == BACKSLASH;
        token := token + [c];
      }
    }

    /** parse_string_token. */
    method ParseStringToken() returns (r: Parsed<bytes>)
      requires WindowOk() && error.None? && pos < len && buf[pos] == QUOTE
      modifies `buf, `pos, `len, `absBase, `taken, `eof
      ensures WindowOk() && r == StringAt(cfg.strictUtf8, input, old(Offset()))
      ensures r.Ok? ==> Offset() == r.next
    {
      hide TokenValue;
      pos := pos + 1;
      ghost var b := Offset();
      var contentBase := Offset();
      var closed, token, hasEscape, firstControl := ReadRaw();
      if !closed {
        return Fail(Positioned(UnterminatedString, Offset()));
      }
      var v := TokenResult(token, hasEscape, firstControl, cfg.strictUtf8);
      match v {
        case Fail(e) => return Fail(Shifted(e, contentBase));
        case Ok(t, _) => return Ok(t, Offset());
      }
    }

    /** parse_literal, with the cursor at 't', 'f' or 'n'. */
    method ParseLiteralToken() returns (r: Parsed<Json>)
      requires WindowOk() && error.None? && pos < len && StartsLiteral(buf[pos])
      modifies `buf, `pos, `len, `absBase, `taken, `eof
      ensures WindowOk() && r == ParseLiteral(RfcOf(cfg), Whole(input), old(Offset()))
      ensures r.Ok? ==> Offset() == r.next
    {
      hide ParseLiteral, AfterLiteral;
      var c := buf[pos];
      var lit := if c == 0x74 then TRUE else if c == 0x66 then FALSE else NULL;
      var start := Offset();
      WordIs(RfcOf(cfg), input, start, lit);
      var got := Ensure(|lit|);
      if !got {
        return Fail(Positioned(InvalidLiteral, start));
      }
      assert forall i {:trigger lit[i]} :: 0 <= i < |lit| ==> buf[pos + i] == input[start + i];
      if !(forall i :: 0 <= i < |lit| ==> buf[pos + i] == lit[i]) {
        return Fail(Positioned(InvalidLiteral, start));
      }
      assert LiteralAt(input, start, |input|, lit);
      pos := pos + |lit|;
      AfterWord(RfcOf(cfg), input, if c == 0x6E then Null else Bool(c == 0x74), Offset());
      var more := Ensure(1);
      if more && !ValidAfterLiteral(buf[pos]) {
        return Fail(Positioned(InvalidLiteralTrailing, Offset()));
      }
      r := Ok(if c == 0x6E then Null else Bool(c == 0x74), Offset());
    }

    /** parse_number: rescan from the token's start whenever it runs into the window's end. */
    method ParseNumberToken() returns (r: Parsed<Json>)
      requires WindowOk() && error.None? && pos < len
      modifies `buf, `pos, `len, `absBase, `taken, `eof
      ensures WindowOk() && r == ParseNumber(cfg.lib, input, old(Offset()), |input|)
      ensures r.Ok? ==> Offset() == r.next
    {
      ghost var q := Offset();
      while true
        invariant WindowOk() && Offset() == q && pos < len
        decreases !eof, |input| - taken
      {
        var w := buf[..len];
        var sc := ScanNumber(w, pos, len);
        if sc.next == len && !eof {
          Fill();
          continue;
        }
        r := NumberFromWindow(w, sc);
        return;
      }
    }

    /** The scan stopped inside the window, or the stream ends with it. */
    method NumberFromWindow(w: bytes, sc: NumScan) returns (r: Parsed<Json>)
      requires WindowOk() && error.None? && pos < len && w == buf[..len] && sc == Scan(w, pos, len)
      requires sc.next < len || eof
      modifies `pos
      ensures WindowOk() && r == ParseNumber(cfg.lib, input, old(Offset()), |input|)
      ensures r.Ok? ==> Offset() == r.next
    {
      hide ParseNumber, Scan;
      NumberHere(w);
      var v := NumberResult(w, pos, sc);
      r := MovedResult(v, absBase);
      if v.Ok? {
        pos := v.next;
      }
    }

    lemma NumberHere(w: bytes)
      requires WindowOk() && pos < len && w == buf[..len] && (Scan(w, pos, len).next < len || eof)
      ensures ParseNumber(cfg.lib, input, Offset(), |input|) == MovedResult(ParseNumber(cfg.lib, w, pos, len), absBase)
    {
      hide ParseNumber, Scan;
      NumberMoved(cfg.lib, w, input, absBase, pos);
    }

    /** Classify a scanned token of the window. */
    method NumberResult(w: bytes, p: nat, sc: NumScan) returns (v: Parsed<Json>)
      requires sc == Scan(w, p, |w|)
      ensures v == ParseNumber(cfg.lib, w, p, |w|)
    {
      if !sc.err.NumOk? {
        return Fail(Positioned(NumErrorCode(sc.err), sc.next));
      }
      ScanShape(w, p, |w|);
      v := ClassifyNumber(cfg.lib, w, p, sc);
    }

    // ---- the machine ----

    method Record(e: Error)
      requires error.None?
      modifies `error
      ensures error == Some(e)
    {
      error := Some(e);
    }

    /** enter_container, then consume the bracket. */
    method EnterContainer(kind: Kind) returns (ok: bool)
      requires Valid() && startChecked && error.None? && pos < len
      modifies this
      ensures Valid() &&
        Took(Enter(cfg, old(Abstract()), old(Offset()), kind), ok, if kind.ObjectFrame? then BeginObject
        else BeginArray)
    {
      if cfg.maxDepth != 0 && |stack| + 1 > cfg.maxDepth {
        Record(Positioned(MaxDepthExceeded, Offset()));
        return false;
      }
      var f := Frame(kind, if kind.ObjectFrame? then ObjectKeyOrEnd else ArrayValueOrEnd);
      stack := stack + [f];
      pos := pos + 1;
      ok := true;
    }

    /** complete_value. */
    method CompleteValue()
      requires Valid() && startChecked && error.None?
      modifies `stack, `rootDone
      ensures Valid() && Abstract() == Complete(old(Abstract()))
    {
      if stack == [] {
        rootDone := true;
        return;
      }
      var f := stack[|stack| - 1];
      var phase := if f.kind.ObjectFrame? then ObjectCommaOrEnd else ArrayCommaOrEnd;
      stack := stack[|stack| - 1 := f.(phase := phase)];
    }

    /** The turn happened: its event was returned, or the reader stopped in its state. */
    ghost predicate Took(t: Turn, ok: bool, out: Event)
      reads this
    {
      match t
      case Emit(e, x) => ok && out == e && error.None? && Reached(x)
      case Halt(x) => !ok && Reached(x)
      case Go(x) => !ok && error.None? && Reached(x)
    }

    /** Emit a scalar token, or record its failure. */
    method FinishScalar(r: Parsed<Json>, ghost before: State) returns (ok: bool, out: Event)
      requires Valid() && startChecked && error.None? && before.error.None?
      requires Abstract() == before.(pos := Offset()) && (r.Ok? ==> Offset() == r.next)
      modifies `stack, `rootDone, `error
      ensures Valid() && Took(ScalarTurn(before, r), ok, out)
    {
      out := EndArray;
      match r {
        case Fail(e) =>
          Record(e);
          return false, out;
        case Ok(v, n) =>
          CompleteValue();
          return true, Scalar(v);
      }
    }

    /** expect_value. */
    method ExpectValueNext(atRoot: bool) returns (ok: bool, out: Event)
      requires Valid() && startChecked && error.None?
      modifies this
      ensures Valid() && Took(ExpectValue(cfg, input, old(Abstract()), atRoot), ok, out)
    {
      hide StringAt, ParseLiteral, ParseNumber, SkipWs, Complete, WindowOk;
      ghost var before := Abstract();
      SkipWhitespace();
      out := EndArray;
      if len == pos {
        Record(Positioned(if atRoot then UnexpectedEndOfInput else UnexpectedCharacter, Offset()));
        return false, out;
      }
      CurrentByte();
      var c := buf[pos];
      if c == LBRACE {
        ok := EnterContainer(ObjectFrame);
        out := BeginObject;
      } else if c == LBRACKET {
        ok := EnterContainer(ArrayFrame);
        out := BeginArray;
      } else if c == QUOTE {
        var t := ParseStringToken();
        ok, out := FinishScalar(AsString(t), before);
      } else if c == 0x74 || c == 0x66 || c == 0x6E {
        var v := ParseLiteralToken();
        ok, out := FinishScalar(v, before);
      } else if c == MINUS || IsDigit(c) {
        var v := ParseNumberToken();
        ok, out := FinishScalar(v, before);
      } else {
        Record(Positioned(if atRoot then UnexpectedValueCharacter else UnexpectedCharacter, Offset()));
        ok := false;
      }
    }

    /** The byte at the cursor, after white space, or none at the end of the stream. */
    method Peek() returns (c: Option<byte>)
      requires WindowOk() && error.None?
      modifies `buf, `pos, `len, `absBase, `taken, `eof
      ensures WindowOk() && Offset() == SkipWs(input, old(Offset()))
      ensures c.None? ==> Offset() == |input|
      ensures c.Some? ==> Offset() < |input| && pos < len <= |buf| && c.value == buf[pos] == input[Offset()]
    {
      SkipWhitespace();
      if len == pos {
        return None;
      }
      return Some(buf[pos]);
    }

    /** A closing bracket ends the innermost container, whose parent's value slot is then filled. */
    method CloseContainer(e: Event) returns (ok: bool, out: Event)
      requires Valid() && startChecked && error.None? && pos < len && |stack| > 0
      modifies this
      ensures Valid() && Took(CloseTurn(old(Abstract()), old(Offset()), e), ok, out)
    {
      pos := pos + 1;
      stack := stack[..|stack| - 1];
      CompleteValue();
      return true, e;
    }

    method SetPhase(phase: Phase)
      requires Valid() && startChecked && |stack| > 0
      modifies `stack
      ensures Valid() && stack == SetTop(old(stack), phase)
    {
      var i := |stack| - 1;
      stack := stack[i := stack[i].(phase := phase)];
    }

    /** The phases that expect a key. */
    method KeyNext() returns (ok: bool, out: Event)
      requires Valid() && startChecked && error.None? && |stack| > 0
      modifies this
      ensures Valid() && Took(KeyTurn(cfg, input, old(Abstract())), ok, out)
    {
      hide StringAt, SkipWs, Complete, WindowOk, SetTop;
      out := EndArray;
      var first := stack[|stack| - 1].phase.ObjectKeyOrEnd?;
      var c := Peek();
      if c.None? {
        Record(Positioned(ExpectedStringKey, Offset()));
        return false, out;
      }
      if c.value == RBRACE && first {
        ok, out := CloseContainer(EndObject);
        return;
      }
      if c.value != QUOTE {
        Record(Positioned(ExpectedStringKey, Offset()));
        return false, out;
      }
      var t := ParseStringToken();
      match t {
        case Fail(e) =>
          Record(e);
          return false, out;
        case Ok(k, n) =>
          SetPhase(ObjectColon);
          return true, MapKey(k);
      }
    }

    /** The phases behind a value. */
    method CommaNext(close: byte, e: Event, next: Phase, atEnd: Code, other: Code) returns (ok: bool, out: Event)
      requires Valid() && startChecked && error.None? && |stack| > 0
      modifies this
      ensures Valid() && Took(CommaTurn(input, old(Abstract()), close, e, next, atEnd, other), ok, out)
    {
      hide SkipWs, Complete, WindowOk, SetTop;
      out := EndArray;
      var c := Peek();
      if c.None? {
        Record(Positioned(atEnd, Offset()));
        return false, out;
      }
      if c.value == close {
        ok, out := CloseContainer(e);
        return;
      }
      if c.value != COMMA {
        Record(Positioned(other, Offset()));
        return false, out;
      }
      Advance();
      SetPhase(next);
      ok := false;
    }

    method Advance()
      requires WindowOk() && pos < len
      modifies `pos
      ensures WindowOk() && Offset() == old(Offset()) + 1
    {
      pos := pos + 1;
    }

    method ColonNext() returns (ok: bool, out: Event)
      requires Valid() && startChecked && error.None? && |stack| > 0 && stack[|stack| - 1].phase.ObjectColon?
      modifies this
      ensures Valid() && Took(FrameTurn(cfg, input, old(Abstract())), ok, out)
    {
      hide SkipWs, Complete, WindowOk, SetTop, KeyTurn, CommaTurn, ExpectValue;
      out := EndArray;
      var c := Peek();
      if c.None? || c.value != COLON {
        Record(Positioned(ExpectedColon, Offset()));
        return false, out;
      }
      Advance();
      SetPhase(ObjectValue);
      ok := false;
    }

    method FirstElementNext() returns (ok: bool, out: Event)
      requires Valid() && startChecked && error.None? && |stack| > 0 && stack[|stack| - 1].phase.ArrayValueOrEnd?
      modifies this
      ensures Valid() && Took(FrameTurn(cfg, input, old(Abstract())), ok, out)
    {
      hide SkipWs, Complete, WindowOk, SetTop, KeyTurn, CommaTurn, ExpectValue;
      out := EndArray;
      var c := Peek();
      if c.None? {
        Record(Positioned(UnexpectedCharacter, Offset()));
        return false, out;
      }
      if c.value == RBRACKET {
        ok, out := CloseContainer(EndArray);
        return;
      }
      ok, out := ExpectValueNext(false);
    }

    /** The turn inside an open container: dispatch on the phase of the innermost frame. */
    method FrameNext() returns (ok: bool, out: Event)
      requires Valid() && startChecked && error.None? && |stack| > 0
      modifies this
      ensures Valid() && Took(FrameTurn(cfg, input, old(Abstract())), ok, out)
    {
      hide SkipWs, Complete, WindowOk, SetTop, KeyTurn, CommaTurn, ExpectValue;
      match stack[|stack| - 1].phase {
        case ObjectKeyOrEnd => ok, out := KeyNext();
        case ObjectKey => ok, out := KeyNext();
        case ObjectColon => ok, out := ColonNext();
        case ObjectValue => ok, out := ExpectValueNext(false);
        case ObjectCommaOrEnd =>
          ok, out := CommaNext(RBRACE, EndObject, ObjectKey, UnexpectedEndOfObject, ExpectedCommaOrBrace);
        case ArrayValueOrEnd => ok, out := FirstElementNext();
        case ArrayValue => ok, out := ExpectValueNext(false);
        case ArrayCommaOrEnd =>
          ok, out := CommaNext(RBRACKET, EndArray, ArrayValue, ExpectedCommaOrBracket, ExpectedCommaOrBracket);
      }
    }

    /** The turn between top-level values. */
    method RootDoneNext()
      requires Valid() && startChecked && error.None? && rootDone
      modifies this
      ensures Valid() && Took(RootDoneTurn(mode, input, old(Abstract())), false, EndArray)
    {
      hide SkipWs, WindowOk;
      if mode.SingleRoot? {
        var c := Peek();
        if c.Some? {
          Record(Positioned(ExtraCharactersAfterValue, Offset()));
        } else {
          finished := true;
        }
        return;
      }
      var more := Ensure(1);
      if !more {
        finished := true;
        return;
      }
      var gap := AtWhitespace();
      if !gap {
        Record(Positioned(ExtraCharactersAfterValue, Offset()));
        return;
      }
      var c := Peek();
      if c.None? {
        finished := true;
      } else {
        rootDone := false;
      }
    }

    method AtWhitespace() returns (ws: bool)
      requires WindowOk() && len - pos >= 1
      ensures Offset() < |input| && ws == IsWs(input[Offset()])
    {
      ws := IsWs(buf[pos]);
    }

    /** One turn of the loop in next(). */
    method TakeTurn() returns (ok: bool, out: Event)
      requires Valid() && startChecked && error.None? && !finished
      modifies this
      ensures Valid() && Took(OneTurn(cfg, mode, input, old(Abstract())), ok, out)
    {
      hide SkipWs, WindowOk, ExpectValue, FrameTurn, RootDoneTurn;
      ok, out := false, EndArray;
      if rootDone {
        RootDoneNext();
        return;
      }
      if |stack| == 0 {
        if mode.MultiValue? {
          var c := Peek();
          if c.None? {
            finished := true;
            return;
          }
        }
        ok, out := ExpectValueNext(true);
      } else {
        ok, out := FrameNext();
      }
    }

    /** next(): pull one event. */
    method NextEvent() returns (ok: bool, out: Event)
      requires Valid()
      modifies this
      ensures Valid()
      ensures var n := Next(cfg, mode, input, old(Abstract()));
        ok == n.event.Some? && (ok ==> out == n.event.value && error.None?) && Reached(n.state)
    {
      if !startChecked {
        SkipStartBom();
      }
      ghost var r0 := Abstract();
      StopStays(cfg, mode, input, r0);
      hide OneTurn, WindowOk;
      ok, out := false, EndArray;
      while error.None? && !finished
        invariant Valid() && startChecked && !ok
        invariant error.None? && !finished ==> Next(cfg, mode, input, r0) == Next(cfg, mode, input, Abstract())
        invariant error.Some? || finished ==>
          Next(cfg, mode, input, r0).event.None? && Reached(Next(cfg, mode, input, r0).state)
        decreases error.None? && !finished, |input| - Offset()
      {
        NextTurn(cfg, mode, input, Abstract());
        HaltEnds(cfg, mode, input, Abstract());
        ok, out := TakeTurn();
        if ok {
          return;
        }
        hide Next;
      }
    }

    /** Pull until the reader stops. The outcome is the whole stream's, whatever the chunk size was. */
    method ReadAll() returns (events: seq<Event>)
      requires Valid() && Abstract() == Start(cfg, input)
      modifies this
      ensures Valid() && events == Events(cfg, mode, input).events && error == Events(cfg, mode, input).state.error
    {
      events := [];
      ghost var whole := Events(cfg, mode, input);
      ghost var r := Abstract();
      assert whole == Run(cfg, mode, input, r);
      hide Run, Next, WindowOk, Events, Abstract;
      assert [] + Run(cfg, mode, input, r).events == Run(cfg, mode, input, r).events;
      while true
        invariant Valid() && r == Abstract() && r.pos <= |input|
        invariant whole.events == events + Run(cfg, mode, input, r).events &&
          whole.state == Run(cfg, mode, input, r).state
        decreases |input| - r.pos
      {
        RunStep(cfg, mode, input, r);
        ghost var n := Next(cfg, mode, input, r);
        var ok, e := NextEvent();
        if !ok {
          return;
        }
        events := events + [e];
        r := n.state;
      }
    }

    lemma CurrentByte()
      requires WindowOk() && pos < len
      ensures Offset() < |input| && pos < |buf| && buf[pos] == input[Offset()]
    {
    }
  }

  /** A stopped machine stays stopped. */
  lemma StopStays(cfg: Config, mode: StreamMode, s: bytes, r: State)
    requires r.pos <= |s|
    ensures r.error.Some? || r.finished ==> Next(cfg, mode, s, r) == Pulled(None, r)
  {
  }

  lemma NextTurn(cfg: Config, mode: StreamMode, s: bytes, r: State)
    requires r.pos <= |s|
    ensures var t := OneTurn(cfg, mode, s, r);
      Next(cfg, mode, s, r) ==
        if t.Emit? then Pulled(Some(t.event), t.state)
        else if t.Halt? then Pulled(None, t.state)
        else Next(cfg, mode, s, t.state)
  {
    hide OneTurn;
  }

  /** The reader stops with an error, or at the end of the stream. */
  lemma HaltEnds(cfg: Config, mode: StreamMode, s: bytes, r: State)
    requires r.pos <= |s|
    ensures var t := OneTurn(cfg, mode, s, r); t.Halt? ==> t.state.error.Some? || t.state.finished
  {
    hide StringAt, ParseNumber, ParseLiteral, SkipWs;
  }

  /** Where the raw scan ends, from p on, when the previous byte was (or was not) an unescaped backslash. */
  function RawRest(s: bytes, p: nat, escaped: bool): nat
    requires p <= |s|
  {
    if !escaped then RawEnd(s, p) else if p == |s| then |s| else RawEnd(s, p + 1)
  }

  /** The literal the first byte announces is the only one parse_literal can match. */
  lemma WordIs(cfg: Config, s: bytes, p: nat, lit: bytes)
    requires p < |s| && StartsLiteral(s[p]) && lit == if s[p] == 0x74 then TRUE else if s[p] == 0x66 then FALSE
      else NULL
    ensures ParseLiteral(cfg, Whole(s), p) ==
      if LiteralAt(s, p, |s|, lit) then
        AfterLiteral(cfg, s, if s[p] == 0x6E then Null else Bool(s[p] == 0x74), p + |lit|)
      else Fail(Positioned(InvalidLiteral, p))
  {
    hide LiteralAt, AfterLiteral;
    LiteralByFirst(s, p);
  }

  lemma AfterWord(cfg: Config, s: bytes, v: Json, q: nat)
    requires !cfg.json5
    ensures AfterLiteral(cfg, s, v, q) == if ValidAfterLiteral(At(s, q)) then Ok(v, q)
      else Fail(Positioned(InvalidLiteralTrailing, q))
  {
  }

  lemma NothingRaw(s: bytes, b: nat)
    requires b <= |s|
    ensures !HasEscape([]) && ControlIn([]).None? && s[b..b] == [] && RawRest(s, b, false) == RawEnd(s, b)
  {
  }

  lemma RawStops(s: bytes, p: nat, escaped: bool)
    requires p <= |s|
    ensures p == |s| ==> RawRest(s, p, escaped) == |s|
    ensures p < |s| && s[p] == QUOTE && !escaped ==> RawRest(s, p, escaped) == p
  {
  }

  /** One more byte of a raw body. */
  lemma RawByte(s: bytes, b: nat, p: nat, escaped: bool, token: bytes)
    requires b <= p < |s| && token == s[b..p] && (escaped || s[p] != QUOTE)
    ensures RawRest(s, p, escaped) == RawRest(s, p + 1, !escaped && s[p] == BACKSLASH)
    ensures token + [s[p]] == s[b..p + 1]
    ensures HasEscape(token + [s[p]]) <==> HasEscape(token) || s[p] == BACKSLASH
    ensures ControlIn(token + [s[p]]) == if ControlIn(token).None? && s[p] < 0x20 then Some(|token|)
      else ControlIn(token)
  {
    FirstControlSnoc(token, 0, s[p]);
    assert s[b..p + 1] == s[b..p] + [s[p]];
  }
}
