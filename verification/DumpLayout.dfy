/**
 How a written text is laid out, said from the text alone: between its tokens, a line break with the indentation of the
 depth behind every opening bracket and every comma and in front of every closing bracket, a space behind every colon,
 and nothing else; in a compact text nothing at all.
 */
module DumpLayout {
  import opened Core
  import opened Lexis
  import opened Grammar
  import opened Numbers
  import opened Strings
  import opened StringMeaning
  import opened StringWriter
  import opened StringRoundTrip
  import opened DumpSpec
  import opened DumpRoundTrip

  // ---- the layout ----

  predicate Opener(c: byte) { c == '[' as int || c == '{' as int }
  predicate Closer(c: byte) { c == ']' as int || c == '}' as int }
  predicate Matching(c: byte, e: byte) { (c == '[' as int && e == ']' as int) || (c == '{' as int && e == '}' as int) }

  /** At p a pretty text breaks the line and indents for d open containers; a compact one has nothing there. */
  predicate BreakAt(o: DumpOptions, s: bytes, p: nat, d: nat) {
    o.pretty ==>
      && p + 1 + o.indent * d <= |s| && s[p] == '\n' as int
      && forall i :: p < i <= p + o.indent * d ==> s[i] == o.indentChar
  }

  function BreakWidth(o: DumpOptions, d: nat): nat { if o.pretty then 1 + o.indent * d else 0 }

  /** From p on, which lies outside every string with d containers open, the text is laid out as it should be. */
  predicate Laid(o: DumpOptions, s: bytes, p: nat, d: nat)
    decreases |s| - p
  {
    if p >= |s| then d == 0
    else if s[p] == '"' as int then LaidInside(o, s, p + 1, d)
    else if Opener(s[p]) && p + 1 < |s| && Matching(s[p], s[p + 1]) then Laid(o, s, p + 2, d)
    else if Opener(s[p]) then BreakAt(o, s, p + 1, d + 1) && Laid(o, s, p + 1 + BreakWidth(o, d + 1), d + 1)
    else if s[p] == ',' as int then BreakAt(o, s, p + 1, d) && Laid(o, s, p + 1 + BreakWidth(o, d), d)
    else if s[p] == ':' as int && o.pretty then p + 1 < |s| && s[p + 1] == ' ' as int && Laid(o, s, p + 2, d)
    else if s[p] == ':' as int then Laid(o, s, p + 1, d)
    else if Closer(s[p]) || s[p] == '\n' as int then
      d > 0 && BreakAt(o, s, p, d - 1) && Closes(o, s, p, d - 1) && Laid(o, s, p + BreakWidth(o, d - 1) + 1, d - 1)
    else s[p] > 0x20 && Laid(o, s, p + 1, d)
  }

  /** Behind the line break for d open containers a closing bracket stands. */
  predicate Closes(o: DumpOptions, s: bytes, p: nat, d: nat) {
    p + BreakWidth(o, d) < |s| && Closer(s[p + BreakWidth(o, d)])
  }

  /** The same inside a string, where no byte is a control byte and escapes come in one piece. */
  predicate LaidInside(o: DumpOptions, s: bytes, p: nat, d: nat)
    decreases |s| - p
  {
    && p < |s|
    && if s[p] == '"' as int then Laid(o, s, p + 1, d)
       else if s[p] == '\\' as int then LaidInside(o, s, p + 2, d)
       else s[p] >= 0x20 && LaidInside(o, s, p + 1, d)
  }

  // ---- scalars ----

  /** A byte with no part in the layout. */
  predicate Neutral(c: byte) {
    c > 0x20 && c != '"' as int && !Opener(c) && !Closer(c) && c != ',' as int && c != ':' as int
  }

  lemma {:induction false} NeutralLaid(o: DumpOptions, s: bytes, p: nat, q: nat, d: nat)
    requires p <= q <= |s| && forall i :: p <= i < q ==> Neutral(s[i])
    ensures Laid(o, s, p, d) == Laid(o, s, q, d)
    decreases q - p
  {
    if p < q { NeutralLaid(o, s, p + 1, q, d); }
  }

  lemma NeutralText(o: DumpOptions, s: bytes, p: nat, t: bytes, d: nat)
    requires MatchAt(s, p, t) && forall i :: 0 <= i < |t| ==> Neutral(t[i])
    ensures Laid(o, s, p, d) == Laid(o, s, p + |t|, d)
  {
    hide Neutral, Laid;
    forall i | p <= i < p + |t| ensures Neutral(s[i]) { assert s[p + (i - p)] == t[i - p]; }
    NeutralLaid(o, s, p, p + |t|, d);
  }

  lemma NumberIsNeutral(t: bytes)
    requires IsNumberToken(t, 0, |t|)
    ensures forall i :: 0 <= i < |t| ==> Neutral(t[i])
  {
    var a: nat, b: nat, c: nat :| IsNumberSplit(t, 0, a, b, c, |t|);
  }

  lemma IntIsNeutral(v: int64)
    ensures forall i :: 0 <= i < |IntText(v)| ==> Neutral(IntText(v)[i])
  {
    DecTextRoundTrip(Magnitude(v));
  }

  lemma DoubleIsNeutral(lib: FloatLib, d: Double)
    requires FloatsRoundTrip(lib) && IsFinite(d)
    ensures forall i :: 0 <= i < |DoubleText(lib, d)| ==> Neutral(DoubleText(lib, d)[i])
  {
    NumberIsNeutral(lib.toChars(d));
  }

  lemma CharInside(o: DumpOptions, s: bytes, i: nat, n: nat, u: bytes, d: nat)
    requires Char(s, i, n, u)
    ensures LaidInside(o, s, i, d) == LaidInside(o, s, n, d)
  {
    hide Utf8Of, Simple;
    if s[i] == BACKSLASH && n != i + 2 {
      var cp: nat :| cp < 0x110000 && Unicode(s, i, n, cp) && u == Utf8Of(cp);
      hide HexDigit, Unicode;
      assert n == i + 6 || n == i + 12 by { UnicodeLength(s, i, n, cp); }
      UnicodeEscapes(s, i, n, cp);
      EscapeInside(o, s, i, d);
      if n == i + 12 { EscapeInside(o, s, i + 6, d); }
    }
  }

  lemma UnicodeLength(s: bytes, i: nat, n: nat, cp: nat)
    requires Unicode(s, i, n, cp)
    ensures n == i + 6 || n == i + 12
  {
  }

  /** `\uXXXX` at i, of whatever value. */
  predicate EscapeShape(s: bytes, i: nat) {
    && i + 6 <= |s| && s[i] == BACKSLASH
    && forall k :: i + 2 <= k < i + 6 ==> s[k] >= 0x20 && s[k] != QUOTE && s[k] != BACKSLASH
  }

  lemma UnicodeEscapes(s: bytes, i: nat, n: nat, cp: nat)
    requires Unicode(s, i, n, cp)
    ensures EscapeShape(s, i) && (n == i + 12 ==> EscapeShape(s, i + 6))
  {
  }

  lemma EscapeInside(o: DumpOptions, s: bytes, i: nat, d: nat)
    requires EscapeShape(s, i)
    ensures LaidInside(o, s, i, d) == LaidInside(o, s, i + 6, d)
  {
    hide Laid;
    assert LaidInside(o, s, i, d) == LaidInside(o, s, i + 2, d);
    assert LaidInside(o, s, i + 2, d) == LaidInside(o, s, i + 3, d);
    assert LaidInside(o, s, i + 3, d) == LaidInside(o, s, i + 4, d);
    assert LaidInside(o, s, i + 4, d) == LaidInside(o, s, i + 5, d);
    assert LaidInside(o, s, i + 5, d) == LaidInside(o, s, i + 6, d);
  }

  lemma {:induction false} CharsInside(o: DumpOptions, s: bytes, i: nat, q: nat, t: bytes, d: nat)
    requires i <= q && Chars(s, i, q, t)
    ensures LaidInside(o, s, i, d) == LaidInside(o, s, q, d)
    decreases q - i
  {
    hide Char, LaidInside;
    if i < q {
      var n: nat, u: bytes :| i < n <= q && Char(s, i, n, u) && u <= t && Chars(s, n, q, t[|u|..]);
      CharInside(o, s, i, n, u, d);
      CharsInside(o, s, n, q, t[|u|..], d);
    }
  }

  /** The written token stands for the string, so the layout goes on behind it. */
  lemma TokenLaid(o: DumpOptions, raw: bytes, ascii: bool, s: bytes, p: nat, d: nat)
    requires Token(raw, ascii).Text? && MatchAt(s, p, Token(raw, ascii).t)
    ensures Laid(o, s, p, d) == Laid(o, s, p + |Token(raw, ascii).t|, d)
    ensures p < |s| && s[p] == QUOTE
  {
    hide Chars, LaidInside, Laid, ParseString, Escaped, AsciiEscaped;
    var n := p + |Token(raw, ascii).t|;
    TokenStartsQuoted(raw, ascii);
    assert s[p + 0] == Token(raw, ascii).t[0];
    StringRoundTrips(false, raw, ascii, Whole(s), p);
    StringMeans(false, Whole(s), p, n, raw);
    CharsInside(o, s, p + 1, n - 1, raw, d);
    QuoteLaid(o, s, p, n, d);
  }

  lemma QuoteLaid(o: DumpOptions, s: bytes, p: nat, n: nat, d: nat)
    requires p + 2 <= n <= |s| && s[p] == QUOTE && s[n - 1] == QUOTE
    ensures Laid(o, s, p, d) == LaidInside(o, s, p + 1, d) && LaidInside(o, s, n - 1, d) == Laid(o, s, n, d)
  {
  }

  lemma ScalarLaid(o: DumpOptions, lib: FloatLib, v: Json, depth: nat, s: bytes, p: nat)
    requires FloatsRoundTrip(lib) && !v.Arr? && !v.Obj? && WriteValue(o, 0, lib, v, depth).Text?
    requires MatchAt(s, p, WriteValue(o, 0, lib, v, depth).t)
    ensures Laid(o, s, p, depth) == Laid(o, s, p + |WriteValue(o, 0, lib, v, depth).t|, depth)
  {
    hide Laid, MatchAt, IntText, DoubleText, FloatsRoundTrip, Token;
    match v
    case Int(i) =>
      IntIsNeutral(i);
      NeutralText(o, s, p, IntText(i), depth);
    case Float(d) =>
      DoubleIsNeutral(lib, d);
      NeutralText(o, s, p, DoubleText(lib, d), depth);
    case Str(x) => TokenLaid(o, x, o.ascii, s, p, depth);
    case Bool(b) => NeutralText(o, s, p, if b then TRUE else FALSE, depth);
    case Null => NeutralText(o, s, p, NULL, depth);
  }

  // ---- containers ----

  lemma IndentIsBreak(o: DumpOptions, s: bytes, p: nat, d: nat)
    requires MatchAt(s, p, Indent(o, d))
    ensures BreakAt(o, s, p, d) && |Indent(o, d)| == BreakWidth(o, d)
  {
    if o.pretty {
      var t := Indent(o, d);
      assert s[p + 0] == t[0];
      forall i | p < i <= p + o.indent * d ensures s[i] == o.indentChar { assert s[p + (i - p)] == t[i - p]; }
    }
  }

  /** What an opening bracket and the break behind it do. */
  lemma OpenLaid(o: DumpOptions, s: bytes, p: nat, d: nat)
    requires p + 1 < |s| && Opener(s[p]) && !Closer(s[p + 1]) && BreakAt(o, s, p + 1, d + 1)
    ensures Laid(o, s, p, d) == Laid(o, s, p + 1 + BreakWidth(o, d + 1), d + 1)
  {
  }

  lemma CommaLaid(o: DumpOptions, s: bytes, p: nat, d: nat)
    requires p < |s| && s[p] == COMMA && BreakAt(o, s, p + 1, d)
    ensures Laid(o, s, p, d) == Laid(o, s, p + 1 + BreakWidth(o, d), d)
  {
  }

  lemma CloseLaid(o: DumpOptions, s: bytes, p: nat, d: nat)
    requires BreakAt(o, s, p, d) && p + BreakWidth(o, d) < |s| && Closer(s[p + BreakWidth(o, d)])
    ensures Laid(o, s, p, d + 1) == Laid(o, s, p + BreakWidth(o, d) + 1, d)
  {
  }

  lemma EmptyLaid(o: DumpOptions, s: bytes, p: nat, d: nat)
    requires p + 1 < |s| && Matching(s[p], s[p + 1])
    ensures Laid(o, s, p, d) == Laid(o, s, p + 2, d)
  {
  }

  lemma ColonLaid(o: DumpOptions, s: bytes, p: nat, d: nat)
    requires MatchAt(s, p, KeySep(o))
    ensures Laid(o, s, p, d) == Laid(o, s, p + |KeySep(o)|, d)
  {
    assert s[p + 0] == KeySep(o)[0];
    if o.pretty { assert s[p + 1] == KeySep(o)[1]; }
  }

  /** The break and the closing bracket behind the last child. */
  lemma ClosingLaid(o: DumpOptions, s: bytes, p: nat, d: nat, close: byte)
    requires MatchAt(s, p, Indent(o, d) + [close]) && Closer(close)
    ensures Laid(o, s, p, d + 1) == Laid(o, s, p + |Indent(o, d) + [close]|, d)
  {
    hide Laid;
    MatchConcat(s, p, Indent(o, d), [close]);
    IndentIsBreak(o, s, p, d);
    MatchByte(s, p + BreakWidth(o, d), close);
    CloseLaid(o, s, p, d);
  }

  /** A written value lies within the layout, at whatever depth. */
  lemma {:induction false} ValueLaid(o: DumpOptions, lib: FloatLib, v: Json, depth: nat, s: bytes, p: nat, t: bytes)
    requires FloatsRoundTrip(lib) && WriteValue(o, 0, lib, v, depth) == Text(t) && MatchAt(s, p, t)
    ensures Laid(o, s, p, depth) == Laid(o, s, p + |t|, depth)
    decreases v, 2, 0
  {
    hide WriteValue, WriteElements, WriteMembers, MatchAt, Laid, FloatsRoundTrip;
    if v.Arr? {
      ArrayText(o, lib, v, depth, t);
      if |v.items| == 0 {
        PairAt(o, s, p, depth, t);
      } else {
        var e := WriteElements(o, 0, lib, v, 0, depth).t;
        MatchConcat(s, p, [LBRACKET], e);
        MatchByte(s, p, LBRACKET);
        ElementsLaid(o, lib, v, 0, depth, s, p + 1, e);
        OpenLaid(o, s, p, depth);
      }
    } else if v.Obj? {
      ObjectText(o, lib, v, depth, t);
      if |v.members| == 0 {
        PairAt(o, s, p, depth, t);
      } else {
        var e := WriteMembers(o, 0, lib, v, 0, depth).t;
        MatchConcat(s, p, [LBRACE], e);
        MatchByte(s, p, LBRACE);
        MembersLaid(o, lib, v, 0, depth, s, p + 1, e);
        OpenLaid(o, s, p, depth);
      }
    } else {
      ScalarLaid(o, lib, v, depth, s, p);
    }
  }

  lemma PairAt(o: DumpOptions, s: bytes, p: nat, d: nat, t: bytes)
    requires MatchAt(s, p, t) && (t == [LBRACKET, RBRACKET] || t == [LBRACE, RBRACE])
    ensures Laid(o, s, p, d) == Laid(o, s, p + |t|, d)
  {
    hide Laid;
    assert s[p + 0] == t[0] && s[p + 1] == t[1];
    EmptyLaid(o, s, p, d);
  }

  /** Element i and everything behind it: the break in front of it, and what the layout comes to. */
  lemma {:induction false} ElementsLaid(o: DumpOptions, lib: FloatLib, v: Json, i: nat, depth: nat, s: bytes, p: nat,
      t: bytes)
    requires v.Arr? && i < |v.items| && FloatsRoundTrip(lib)
    requires WriteElements(o, 0, lib, v, i, depth) == Text(t) && MatchAt(s, p, t)
    ensures p < |s| && BreakAt(o, s, p, depth + 1) && !Closer(s[p])
    ensures Laid(o, s, p + BreakWidth(o, depth + 1), depth + 1) == Laid(o, s, p + |t|, depth)
    decreases v, 1, |v.items| - i
  {
    hide WriteValue, MatchAt, Laid, FloatsRoundTrip, WriteElements, ElementsTail, Indent, BreakAt;
    var w, tail := WriteValue(o, 0, lib, v.items[i], depth + 1), ElementsTail(o, 0, lib, v, i + 1, depth);
    ElementPieces(o, lib, v, i, depth, t);
    MatchThen(s, p, Text(Indent(o, depth + 1)), Then(w, tail));
    var x := p + |Indent(o, depth + 1)|;
    MatchThen(s, x, w, tail);
    IndentIsBreak(o, s, p, depth + 1);
    ValueLaid(o, lib, v.items[i], depth + 1, s, x, w.t);
    FirstByte(o, lib, v.items[i], depth + 1);
    StartsOpen(o, s, p, depth + 1, w.t);
    var y := x + |w.t|;
    ElementsTailIs(o, lib, v, i + 1, depth);
    if i + 1 == |v.items| {
      ClosingLaid(o, s, y, depth, RBRACKET);
    } else {
      var rest := WriteElements(o, 0, lib, v, i + 1, depth);
      MatchThen(s, y, Text([COMMA]), rest);
      MatchByte(s, y, COMMA);
      ElementsLaid(o, lib, v, i + 1, depth, s, y + 1, rest.t);
      CommaLaid(o, s, y, depth + 1);
    }
  }

  lemma ElementPieces(o: DumpOptions, lib: FloatLib, v: Json, i: nat, depth: nat, t: bytes)
    requires v.Arr? && i < |v.items| && WriteElements(o, 0, lib, v, i, depth) == Text(t)
    ensures var w, tail := WriteValue(o, 0, lib, v.items[i], depth + 1), ElementsTail(o, 0, lib, v, i + 1, depth);
      w.Text? && tail.Text? && Then(Text(Indent(o, depth + 1)), Then(w, tail)) == Text(t)
  {
    hide WriteValue, ElementsTail, Indent;
  }

  lemma ElementsTailIs(o: DumpOptions, lib: FloatLib, v: Json, i: nat, depth: nat)
    requires v.Arr? && i <= |v.items|
    ensures ElementsTail(o, 0, lib, v, i, depth) ==
      if i == |v.items| then Text(Indent(o, depth) + [RBRACKET])
      else Then(Text([COMMA]), WriteElements(o, 0, lib, v, i, depth))
  {
    hide WriteElements;
  }

  /** The byte behind an opening bracket or comma does not close: it is a line feed, or the first of a value. */
  lemma StartsOpen(o: DumpOptions, s: bytes, p: nat, d: nat, w: bytes)
    requires MatchAt(s, p, Indent(o, d)) && MatchAt(s, p + |Indent(o, d)|, w)
    requires |w| > 0 && w[0] != RBRACKET && w[0] != RBRACE
    ensures p < |s| && !Closer(s[p])
  {
    if o.pretty {
      assert s[p + 0] == Indent(o, d)[0];
    } else {
      assert s[p + 0] == w[0];
    }
  }

  lemma {:induction false} MembersLaid(o: DumpOptions, lib: FloatLib, v: Json, i: nat, depth: nat, s: bytes, p: nat,
      t: bytes)
    requires v.Obj? && i < |v.members| && FloatsRoundTrip(lib)
    requires WriteMembers(o, 0, lib, v, i, depth) == Text(t) && MatchAt(s, p, t)
    ensures p < |s| && BreakAt(o, s, p, depth + 1) && !Closer(s[p])
    ensures Laid(o, s, p + BreakWidth(o, depth + 1), depth + 1) == Laid(o, s, p + |t|, depth)
    decreases v, 1, |v.members| - i
  {
    hide WriteValue, MatchAt, Laid, FloatsRoundTrip, WriteMembers, MembersTail, Indent, BreakAt, Token, KeySep;
    var x, c, z, y := MemberPieces(o, lib, v, i, depth, s, p, t);
    var k, w := Token(v.members[i].key, o.ascii), WriteValue(o, 0, lib, v.members[i].value, depth + 1);
    IndentIsBreak(o, s, p, depth + 1);
    TokenStartsQuoted(v.members[i].key, o.ascii);
    StartsOpen(o, s, p, depth + 1, k.t);
    TokenLaid(o, v.members[i].key, o.ascii, s, x, depth + 1);
    ColonLaid(o, s, c, depth + 1);
    ValueLaid(o, lib, v.members[i].value, depth + 1, s, z, w.t);
    MembersTailIs(o, lib, v, i + 1, depth);
    if i + 1 == |v.members| {
      ClosingLaid(o, s, y, depth, RBRACE);
    } else {
      var rest := WriteMembers(o, 0, lib, v, i + 1, depth);
      MatchThen(s, y, Text([COMMA]), rest);
      MatchByte(s, y, COMMA);
      MembersLaid(o, lib, v, i + 1, depth, s, y + 1, rest.t);
      CommaLaid(o, s, y, depth + 1);
    }
  }

  lemma MembersTailIs(o: DumpOptions, lib: FloatLib, v: Json, i: nat, depth: nat)
    requires v.Obj? && i <= |v.members|
    ensures MembersTail(o, 0, lib, v, i, depth) ==
      if i == |v.members| then Text(Indent(o, depth) + [RBRACE])
      else Then(Text([COMMA]), WriteMembers(o, 0, lib, v, i, depth))
  {
    hide WriteMembers;
  }

  /** Every dump, pretty or compact, is laid out as it should be: each line indented by its depth times the indent. */
  lemma DumpIsLaid(o: DumpOptions, md: nat, lib: FloatLib, v: Json)
    requires FloatsRoundTrip(lib) && Dump(o, md, lib, v).Text?
    ensures Laid(o, Dump(o, md, lib, v).t, 0, 0)
  {
    hide WriteValue, SortTree, Depth, FloatsRoundTrip;
    var a, t := Arranged(o, v), Dump(o, md, lib, v).t;
    LimitDecides(o, md, lib, a, 0);
    ValueLaid(o, lib, a, 0, t, 0, t);
  }
}
