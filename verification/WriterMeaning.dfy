/**
 The text of a written string, said without the writer's tables: which bytes are escaped, and how, in both modes. And
 what a failed dump says about the tree.
 */
module WriterMeaning {
  import opened Core
  import opened Lexis
  import opened Utf8
  import opened Strings
  import opened StringMeaning
  import opened StringWriter
  import opened DumpSpec

  // ---- the text of one character ----

  function LowerHex(v: nat): byte
    requires v < 16
  {
    if v < 10 then '0' as int + v else 'a' as int + (v - 10)
  }

  /** `\u` and four lower-case digits. */
  function HexText(v: nat): bytes
    requires v < 0x10000
  {
    ['\\' as int, 'u' as int, LowerHex(v / 4096), LowerHex(v / 256 % 16), LowerHex(v / 16 % 16), LowerHex(v % 16)]
  }

  /**
   A byte in a written string: a named escape where there is one (a slash needs none), a hex escape for the others.
   */
  predicate ByteText(c: byte, t: bytes) {
    if c == 0x22 then t == ['\\' as int, '"' as int]
    else if c == 0x5C then t == ['\\' as int, '\\' as int]
    else if c == 0x08 then t == ['\\' as int, 'b' as int]
    else if c == 0x0C then t == ['\\' as int, 'f' as int]
    else if c == 0x0A then t == ['\\' as int, 'n' as int]
    else if c == 0x0D then t == ['\\' as int, 'r' as int]
    else if c == 0x09 then t == ['\\' as int, 't' as int]
    else if c < 0x20 then t == HexText(c)
    else t == [c]
  }

  /** A character beyond ASCII in ascii mode: one hex escape, or the two of its surrogates. */
  predicate PointText(cp: nat, t: bytes)
    requires cp < 0x110000
  {
    if cp < 0x10000 then t == HexText(cp)
    else t == HexText(0xD800 + (cp - 0x10000) / 0x400) + HexText(0xDC00 + (cp - 0x10000) % 0x400)
  }

  /** Behind i the string raw is written as t, byte by byte. */
  ghost predicate RawText(raw: bytes, i: nat, t: bytes)
    decreases |raw| - i
  {
    if i >= |raw| then t == []
    else exists n: nat :: n <= |t| && ByteText(raw[i], t[..n]) && RawText(raw, i + 1, t[n..])
  }

  /** In ascii mode a character beyond ASCII is one of its UTF-8, from i to j. */
  ghost predicate PointAt(raw: bytes, i: nat, j: nat, cp: nat) {
    && 0x80 <= cp < 0x110000 && !HighSurrogate(cp) && !LowSurrogate(cp)
    && i < j <= |raw| && raw[i..j] == Utf8Of(cp)
  }

  ghost predicate AsciiRawText(raw: bytes, i: nat, t: bytes)
    decreases |raw| - i
  {
    if i >= |raw| then t == []
    else
      || (exists n: nat :: raw[i] < 0x80 && n <= |t| && ByteText(raw[i], t[..n]) && AsciiRawText(raw, i + 1, t[n..]))
      || (exists n: nat, j: nat, cp: nat ::
            n <= |t| && PointAt(raw, i, j, cp) && PointText(cp, t[..n]) && AsciiRawText(raw, j, t[n..]))
  }

  // ---- the writer ----

  lemma HexTextIs(v: nat)
    requires v < 0x10000
    ensures U4(v) == HexText(v)
  {
  }

  lemma ByteTextIs(c: byte)
    ensures ByteText(c, EscapedByte(c))
  {
    if c < 0x20 { HexTextIs(c); }
    hide U4, HexText;
  }

  lemma {:induction false} RawTextIs(raw: bytes, i: nat)
    requires i <= |raw|
    ensures RawText(raw, i, Escaped(raw, i))
    decreases |raw| - i
  {
    hide ByteText, EscapedByte;
    if i < |raw| {
      var u, rest := EscapedByte(raw[i]), Escaped(raw, i + 1);
      ByteTextIs(raw[i]);
      RawTextIs(raw, i + 1);
      var t := u + rest;
      assert t[..|u|] == u && t[|u|..] == rest;
    }
  }

  lemma PointTextIs(cp: nat)
    requires cp < 0x110000
    ensures PointText(cp, AsciiText(cp))
  {
    hide HexText, U4;
    if cp < 0x10000 {
      HexTextIs(cp);
    } else {
      HexTextIs(0xD800 + (cp - 0x10000) / 0x400);
      HexTextIs(0xDC00 + (cp - 0x10000) % 0x400);
    }
  }

  /** A step beyond ASCII takes a character by its UTF-8. */
  lemma StepTakesPoint(raw: bytes, i: nat) returns (cp: nat)
    requires i < |raw| && raw[i] >= 0x80 && AsciiAt(raw, i).Step?
    ensures PointAt(raw, i, i + AsciiAt(raw, i).len, cp) && AsciiAt(raw, i).text == AsciiText(cp)
  {
    hide AsciiMultibyte, DecodeUtf8, EncodeUtf8, AsciiText, Utf8Of;
    AsciiStepIsGrammar(raw, i);
    DecodeMatchesGrammar(raw, i);
    cp := DecodeUtf8(raw, i, |raw|).cp;
    Utf8OfIs(cp);
    BeyondAscii(raw, i);
  }

  lemma BeyondAscii(raw: bytes, i: nat)
    requires i < |raw| && raw[i] >= 0x80 && DecodeUtf8(raw, i, |raw|).Good?
    ensures DecodeUtf8(raw, i, |raw|).cp >= 0x80
  {
    DecodeMatchesGrammar(raw, i);
    var d := DecodeUtf8(raw, i, |raw|);
    var t := raw[i..i + d.len];
    assert |t| > 0 && t[0] == raw[i];
  }

  lemma {:induction false} AsciiRawTextIs(raw: bytes, i: nat)
    requires i <= |raw| && AsciiEscaped(raw, i).Text?
    ensures AsciiRawText(raw, i, AsciiEscaped(raw, i).t)
    decreases |raw| - i
  {
    hide ByteText, PointText, PointAt, EscapedByte, AsciiMultibyte, AsciiText;
    if i < |raw| {
      var step := AsciiAt(raw, i);
      var j := i + step.len;
      var rest := AsciiEscaped(raw, j).t;
      AsciiRawTextIs(raw, j);
      var t := step.text + rest;
      assert t[..|step.text|] == step.text && t[|step.text|..] == rest;
      if raw[i] < 0x80 {
        ByteTextIs(raw[i]);
      } else {
        var cp := StepTakesPoint(raw, i);
        PointBelow(raw, i, j, cp);
        PointTextIs(cp);
      }
    }
  }

  lemma PointBelow(raw: bytes, i: nat, j: nat, cp: nat)
    requires PointAt(raw, i, j, cp)
    ensures cp < 0x110000
  {
  }

  /** A written string: its text between quotes, byte by byte, in ascii mode character by character. */
  ghost predicate StringText(raw: bytes, ascii: bool, t: bytes) {
    && |t| >= 2 && t[0] == '"' as int && t[|t| - 1] == '"' as int
    && var body := t[1..|t| - 1]; if ascii then AsciiRawText(raw, 0, body) else RawText(raw, 0, body)
  }

  /** What the writer writes for a string. */
  lemma TokenIsStringText(raw: bytes, ascii: bool)
    requires Token(raw, ascii).Text?
    ensures StringText(raw, ascii, Token(raw, ascii).t)
  {
    hide AsciiRawText, RawText, Escaped, AsciiEscaped;
    var t := Token(raw, ascii).t;
    var body := if ascii then AsciiEscaped(raw, 0).t else Escaped(raw, 0);
    assert t == [QUOTE] + body + [QUOTE] && t[1..|t| - 1] == body;
    if ascii { AsciiRawTextIs(raw, 0); } else { RawTextIs(raw, 0); }
  }

  // ---- failures ----

  /** Somewhere in the tree there is an infinity or a NaN: a double with all exponent bits set. */
  ghost predicate HoldsNonFinite(v: Json) {
    match v
    case Float(d) => d / 0x10_0000_0000_0000 % 0x800 == 0x7FF
    case Arr(items) => exists i :: 0 <= i < |items| && HoldsNonFinite(items[i])
    case Obj(ms) => exists i :: 0 <= i < |ms| && HoldsNonFinite(ms[i].value)
    case _ => false
  }

  /** Somewhere in the tree there is a string or a key that is no UTF-8. */
  ghost predicate HoldsIllFormed(v: Json) {
    match v
    case Str(s) => !WellFormed(s)
    case Arr(items) => exists i :: 0 <= i < |items| && HoldsIllFormed(items[i])
    case Obj(ms) => exists i :: 0 <= i < |ms| && (!WellFormed(ms[i].key) || HoldsIllFormed(ms[i].value))
    case _ => false
  }

  predicate IsUtf8Code(c: Code) {
    || c == Utf8InvalidLead || c == Utf8InvalidContinuation || c == Utf8Overlong || c == Utf8Surrogate
    || c == Utf8ExceedsMax || c == Utf8Truncated
  }

  /** What a failure claims of the tree, written under a limit inside `depth` containers. */
  ghost predicate Blames(o: DumpOptions, md: nat, depth: nat, v: Json, c: Code) {
    || (c == NonFiniteDouble && HoldsNonFinite(v))
    || (c == DumpMaxDepthExceeded && md > 0 && depth + Depth(v) > md)
    || (IsUtf8Code(c) && o.ascii && HoldsIllFormed(v))
  }

  lemma {:induction false} AsciiBlames(raw: bytes, i: nat)
    requires i <= |raw|
    ensures AsciiEscaped(raw, i).Failed? ==> IsUtf8Code(AsciiEscaped(raw, i).code)
    decreases |raw| - i
  {
    hide EscapedByte, RawPoint, AsciiText, Tails;
    if i < |raw| && AsciiAt(raw, i).Step? { AsciiBlames(raw, i + AsciiAt(raw, i).len); }
  }

  lemma TokenBlames(raw: bytes, ascii: bool)
    ensures Token(raw, ascii).Failed? ==> ascii && !WellFormed(raw) && IsUtf8Code(Token(raw, ascii).code)
  {
    hide AsciiEscaped, WellFormed, Escaped;
    TokenWritable(raw, ascii);
    AsciiBlames(raw, 0);
  }

  lemma {:induction false} ValueBlames(o: DumpOptions, md: nat, lib: FloatLib, v: Json, depth: nat)
    ensures var w := WriteValue(o, md, lib, v, depth); w.Failed? ==> Blames(o, md, depth, v, w.code)
    decreases v, 2, 0
  {
    hide WriteElements, WriteMembers, Token, WellFormed, IsFinite, DeepestItem, DeepestMember;
    match v
    case Float(d) => FiniteMeans(d);
    case Str(s) => TokenBlames(s, o.ascii);
    case Arr(items) => if |items| > 0 { ElementsBlame(o, md, lib, v, 0, depth); }
    case Obj(ms) => if |ms| > 0 { MembersBlame(o, md, lib, v, 0, depth); }
    case _ =>
  }

  lemma {:induction false} ElementsBlame(o: DumpOptions, md: nat, lib: FloatLib, v: Json, i: nat, depth: nat)
    requires v.Arr? && i < |v.items|
    ensures var w := WriteElements(o, md, lib, v, i, depth); w.Failed? ==> Blames(o, md, depth, v, w.code)
    decreases v, 1, |v.items| - i
  {
    hide WriteValue, HoldsNonFinite, HoldsIllFormed;
    ValueBlames(o, md, lib, v.items[i], depth + 1);
    HeldByItem(v, i);
    DeepestFirst(v, i);
    if i + 1 < |v.items| { ElementsBlame(o, md, lib, v, i + 1, depth); }
  }

  lemma HeldByItem(v: Json, i: nat)
    requires v.Arr? && i < |v.items|
    ensures HoldsNonFinite(v.items[i]) ==> HoldsNonFinite(v)
    ensures HoldsIllFormed(v.items[i]) ==> HoldsIllFormed(v)
  {
  }

  /** No item from i on is deeper than the deepest of all. */
  lemma {:induction false} DeepestFirst(v: Json, i: nat)
    ensures v.Arr? && i <= |v.items| ==> DeepestItem(v, i) <= DeepestItem(v, 0)
    ensures v.Obj? && i <= |v.members| ==> DeepestMember(v, i) <= DeepestMember(v, 0)
    decreases i
  {
    hide Depth;
    if i > 0 { DeepestFirst(v, i - 1); }
  }

  lemma {:induction false} MembersBlame(o: DumpOptions, md: nat, lib: FloatLib, v: Json, i: nat, depth: nat)
    requires v.Obj? && i < |v.members|
    ensures var w := WriteMembers(o, md, lib, v, i, depth); w.Failed? ==> Blames(o, md, depth, v, w.code)
    decreases v, 1, |v.members| - i
  {
    hide WriteValue, HoldsNonFinite, HoldsIllFormed, Token, WellFormed;
    ValueBlames(o, md, lib, v.members[i].value, depth + 1);
    TokenBlames(v.members[i].key, o.ascii);
    HeldByMember(v, i);
    DeepestFirst(v, i);
    if i + 1 < |v.members| { MembersBlame(o, md, lib, v, i + 1, depth); }
  }

  lemma HeldByMember(v: Json, i: nat)
    requires v.Obj? && i < |v.members|
    ensures HoldsNonFinite(v.members[i].value) ==> HoldsNonFinite(v)
    ensures HoldsIllFormed(v.members[i].value) || !WellFormed(v.members[i].key) ==> HoldsIllFormed(v)
  {
    hide WellFormed;
  }

  /**
   A failed dump says the truth: an indentation that is neither space nor tab, or what its code claims of the tree in
   the order it is written in.
   */
  lemma DumpFailuresAreHonest(o: DumpOptions, md: nat, lib: FloatLib, v: Json)
    ensures var w := Dump(o, md, lib, v);
      && (w == Failed(InvalidIndentChar) <==> o.pretty && o.indentChar != ' ' as int && o.indentChar != '\t' as int)
      && (w.Failed? && w.code != InvalidIndentChar ==> Blames(o, md, 0, Arranged(o, v), w.code))
  {
    hide WriteValue, Blames, SortTree;
    ValueBlames(o, md, lib, Arranged(o, v), 0);
    NoIndentBlame(o, md, Arranged(o, v));
  }

  lemma NoIndentBlame(o: DumpOptions, md: nat, v: Json)
    ensures !Blames(o, md, 0, v, InvalidIndentChar)
  {
  }
}
