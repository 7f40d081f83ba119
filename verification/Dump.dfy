/**
 The writer: a sink that grows and a first-error slot. The block-wise escaper copies clean runs and escapes the
 hits of each lane mask; the tree walk emits what DumpSpec says.
 */
module Dump {
  import opened Core
  import opened Grammar
  import opened Utf8
  import opened Strings
  import opened Numbers
  import opened InPlace
  import opened StringWriter
  import opened StringRoundTrip
  import opened ByteOrder
  import opened DumpSpec

  class Writer {
    const lib: FloatLib
    const width: nat
    var sink: bytes
    var error: Option<Code>

    constructor (lib: FloatLib, width: nat)
      ensures this.lib == lib && this.width == width && sink == [] && error.None?
    {
      this.lib, this.width := lib, width;
      sink, error := [], None;
    }

    /** The step appended its text, or recorded its failure. */
    twostate predicate Emitted(w: Written, ok: bool)
      reads this
    {
      match w
      case Text(t) => ok && error.None? && sink == old(sink) + t
      case Failed(c) => !ok && error == Some(c)
    }

    method Fail(c: Code)
      modifies this`error
      ensures error == (if old(error).Some? then old(error) else Some(c))
    {
      if error.None? {
        error := Some(c);
      }
    }

    method Append(t: bytes)
      modifies this`sink
      ensures sink == old(sink) + t
    {
      sink := sink + t;
    }

    method AppendU4(v: nat)
      requires v <= 0xFFFF
      modifies this`sink
      ensures sink == old(sink) + U4(v)
    {
      Append([BACKSLASH, LOWER_U, HexChar(v / 4096 % 16), HexChar(v / 256 % 16), HexChar(v / 16 % 16),
        HexChar(v % 16)]);
    }

    method AppendEscape(c: byte)
      requires IsStop(c)
      modifies this`sink
      ensures sink == old(sink) + EscapeOf(c)
    {
      match c {
        case 0x22 => Append([BACKSLASH, 0x22]);
        case 0x5C => Append([BACKSLASH, 0x5C]);
        case 0x08 => Append([BACKSLASH, 0x62]);
        case 0x0C => Append([BACKSLASH, 0x66]);
        case 0x0A => Append([BACKSLASH, 0x6E]);
        case 0x0D => Append([BACKSLASH, 0x72]);
        case 0x09 => Append([BACKSLASH, 0x74]);
        case _ => Append([BACKSLASH, LOWER_U, 0x30, 0x30, HexChar(c / 16 % 16), HexChar(c % 16)]);
      }
    }

    // ---- strings ----

    /** Copy the clean run before a hit, escape the hit. */
    method FlushHit(s: bytes, run: nat, hit: nat)
      requires run <= hit < |s| && IsStop(s[hit]) && forall i :: run <= i < hit ==> !IsStop(s[i])
      modifies this`sink
      ensures sink + Escaped(s, hit + 1) == old(sink) + Escaped(s, run)
    {
      hide Escaped, EscapeOf, IsStop;
      EscapedHit(s, run, hit);
      if hit > run {
        Append(s[run..hit]);
      }
      AppendEscape(s[hit]);
      Prefixed(old(sink), s[run..hit], EscapeOf(s[hit]), Escaped(s, hit + 1));
    }

    /** Escape every hit of one block: the lowest set lane first, then clear it. */
    method EscapeBlock(s: bytes, start: nat, curr: nat) returns (run: nat)
      requires start <= curr && curr + width <= |s| && forall i :: start <= i < curr ==> !IsStop(s[i])
      modifies this`sink
      ensures run <= |s| && (run <= curr + width) && (forall i :: run <= i < curr + width ==> !IsStop(s[i]))
      ensures sink + Escaped(s, run) == old(sink) + Escaped(s, start)
    {
      hide Escaped, IsStop, LowestLane;
      run := start;
      var mask: Mask := seq(width, k requires 0 <= k < width => IsStop(s[curr + k]));
      var off := LowestLane(mask);
      while off < width
        invariant |mask| == width && run <= curr + width && off == LowestLane(mask)
        invariant forall k :: 0 <= k < width ==> mask[k] == (curr + k >= run && IsStop(s[curr + k]))
        invariant forall i :: run <= i < curr ==> !IsStop(s[i])
        invariant sink + Escaped(s, run) == old(sink) + Escaped(s, start)
        decreases curr + width - run
      {
        var hit := curr + off;
        forall i | run <= i < hit ensures !IsStop(s[i]) {
          if i >= curr { assert !mask[i - curr]; }
        }
        FlushHit(s, run, hit);
        run := hit + 1;
        mask := mask[off := false];
        off := LowestLane(mask);
      }
      forall i | run <= i < curr + width ensures !IsStop(s[i]) {
        if i >= curr { assert !mask[i - curr]; }
      }
    }

    /** write_escaped_impl without ascii mode: whole blocks, then the scalar tail. No byte past the string is read. */
    method WriteEscapedRaw(s: bytes)
      requires 1 <= width <= 64
      modifies this`sink
      ensures sink == old(sink) + Escaped(s, 0)
    {
      var curr: nat, run: nat := 0, 0;
      while curr + width <= |s|
        invariant run <= curr <= |s|
        invariant forall i :: run <= i < curr ==> !IsStop(s[i])
        invariant sink + Escaped(s, run) == old(sink) + Escaped(s, 0)
        decreases |s| - curr
      {
        run := EscapeBlock(s, run, curr);
        curr := curr + width;
      }
      while curr < |s|
        invariant run <= curr <= |s|
        invariant forall i :: run <= i < curr ==> !IsStop(s[i])
        invariant sink + Escaped(s, run) == old(sink) + Escaped(s, 0)
      {
        if IsStop(s[curr]) {
          FlushHit(s, run, curr);
          run := curr + 1;
        }
        curr := curr + 1;
      }
      EscapedPlain(s, run, |s|);
      if run < |s| {
        Append(s[run..]);
      }
    }

    /** One character at or above 0x80: decode, validate, emit \\u escapes. */
    method WriteMultibyte(s: bytes, p: nat) returns (ok: bool, len: nat)
      requires error.None? && p < |s| && s[p] >= 0x80
      modifies this
      ensures match AsciiMultibyte(s, p)
        case Step(t, n) => ok && len == n && error.None? && sink == old(sink) + t
        case Reject(c) => !ok && error == Some(c)
    {
      var c := s[p];
      var cp: nat := 0;
      ok, len := false, 0;
      if c / 32 == 6 {
        cp, len := c % 32, 2;
      } else if c / 16 == 14 {
        cp, len := c % 16, 3;
      } else if c / 8 == 30 {
        cp, len := c % 8, 4;
      } else {
        Fail(Utf8InvalidLead);
        return;
      }
      if p + len > |s| {
        Fail(Utf8Truncated);
        return;
      }
      var tails;
      tails, cp := ReadTails(s, p, len, cp);
      if !tails {
        Fail(Utf8InvalidContinuation);
        return;
      }
      assert cp == RawPoint(s, p, len);
      if (len == 2 && cp < 0x80) || (len == 3 && cp < 0x800) || (len == 4 && cp < 0x10000) {
        Fail(Utf8Overlong);
        return;
      }
      if cp > 0x10FFFF {
        Fail(Utf8ExceedsMax);
        return;
      }
      if 0xD800 <= cp <= 0xDFFF {
        Fail(Utf8Surrogate);
        return;
      }
      EmitPoint(cp);
      ok := true;
    }

    method ReadTails(s: bytes, p: nat, len: nat, lead: nat) returns (tails: bool, cp: nat)
      requires 2 <= len <= 4 && p + len <= |s|
      requires lead == (if len == 2 then s[p] % 32 else if len == 3 then s[p] % 16 else s[p] % 8)
      ensures tails <==> Tails(s, p + 1, p + len)
      ensures tails ==> cp == RawPoint(s, p, len)
    {
      tails, cp := true, lead;
      var i := 1;
      while i < len
        invariant 1 <= i <= len && Tails(s, p + 1, p + i)
        invariant i == 1 ==> cp == lead
        invariant i == 2 ==> cp == Push(lead, s[p + 1])
        invariant i == 3 ==> cp == Push(Push(lead, s[p + 1]), s[p + 2])
        invariant i == 4 ==> cp == Push(Push(Push(lead, s[p + 1]), s[p + 2]), s[p + 3])
      {
        if !IsTail(s[p + i]) {
          return false, cp;
        }
        cp := Push(cp, s[p + i]);
        i := i + 1;
      }
    }

    method EmitPoint(cp: nat)
      requires cp <= 0x10FFFF
      modifies this`sink
      ensures sink == old(sink) + AsciiText(cp)
    {
      if cp <= 0xFFFF {
        AppendU4(cp);
      } else {
        var x := cp - 0x10000;
        AppendU4(0xD800 + x / 1024);
        AppendU4(0xDC00 + x % 1024);
      }
    }

    /** What one loop step of the ascii writer appends for the byte at p. */
    method WriteAsciiUnit(s: bytes, p: nat) returns (ok: bool, n: nat)
      requires error.None? && p < |s|
      modifies this
      ensures match AsciiAt(s, p)
        case Step(t, len) => ok && n == len && error.None? && sink == old(sink) + t
        case Reject(c) => !ok && error == Some(c)
    {
      var c := s[p];
      ok, n := true, 1;
      if IsStop(c) {
        AppendEscape(c);
      } else if c < 0x80 {
        Append([c]);
      } else {
        ok, n := WriteMultibyte(s, p);
      }
    }

    /** write_escaped_ascii. */
    method WriteEscapedAscii(s: bytes) returns (ok: bool)
      requires error.None?
      modifies this
      ensures Emitted(AsciiEscaped(s, 0), ok)
    {
      hide AsciiAt;
      var p := 0;
      ghost var done: bytes := [];
      assert Then(Text(done), AsciiEscaped(s, 0)) == AsciiEscaped(s, 0);
      while p < |s|
        invariant p <= |s| && error.None? && sink == old(sink) + done
        invariant AsciiEscaped(s, 0) == Then(Text(done), AsciiEscaped(s, p))
      {
        ghost var t := AsciiAt(s, p);
        var n;
        ok, n := WriteAsciiUnit(s, p);
        if !ok {
          return;
        }
        AsciiContinues(s, p, done);
        done := done + t.text;
        p := p + n;
      }
      ok := true;
    }

    /** write_escaped_impl, quotes included. */
    method WriteEscaped(s: bytes, ascii: bool) returns (ok: bool)
      requires 1 <= width <= 64 && error.None?
      modifies this
      ensures Emitted(Token(s, ascii), ok)
    {
      hide AsciiEscaped, Escaped;
      Append([QUOTE]);
      if ascii {
        ok := WriteEscapedAscii(s);
        if !ok {
          return;
        }
      } else {
        WriteEscapedRaw(s);
      }
      Append([QUOTE]);
      ok := true;
    }

    // ---- values ----

    /** write_double. */
    method WriteDouble(d: Double) returns (ok: bool)
      requires error.None?
      modifies this
      ensures Emitted(if IsFinite(d) then Text(DoubleText(lib, d)) else Failed(NonFiniteDouble), ok)
    {
      if !IsFinite(d) {
        Fail(NonFiniteDouble);
        return false;
      }
      var buf := lib.toChars(d);
      Append(buf);
      var hasPoint := false;
      var p := 0;
      while p < |buf|
        invariant p <= |buf| && !hasPoint && forall i :: 0 <= i < p ==> !IsPoint(buf[i])
      {
        if IsPoint(buf[p]) {
          hasPoint := true;
          break;
        }
        p := p + 1;
      }
      if !hasPoint {
        Append([DOT, 0x30]);
      }
      return true;
    }

    method WriteIndent(o: DumpOptions, depth: nat)
      modifies this`sink
      ensures sink == old(sink) + Indent(o, depth)
    {
      if o.pretty {
        Append([LF]);
        Append(Repeat(o.indentChar, o.indent * depth));
      }
    }

    /** write_value. */
    method WriteValueTo(v: Json, o: DumpOptions, depth: nat, md: nat) returns (ok: bool)
      requires 1 <= width <= 64 && error.None?
      modifies this
      ensures Emitted(WriteValue(o, md, lib, Arranged(o, v), depth), ok)
      decreases v, 2
    {
      match v {
        case Null => Append(NULL);
        case Bool(b) => Append(if b then TRUE else FALSE);
        case Int(i) =>
          var t := DumpInt(i);
          Append(t);
        case Float(d) =>
          ok := WriteDouble(d);
          return;
        case Str(x) =>
          ok := WriteEscaped(x, o.ascii);
          return;
        case Arr(items) =>
          ok := WriteArray(v, o, depth, md);
          return;
        case Obj(ms) =>
          ok := WriteObject(v, o, depth, md);
          return;
      }
      ok := true;
    }

    method WriteArray(v: Json, o: DumpOptions, depth: nat, md: nat) returns (ok: bool)
      requires 1 <= width <= 64 && error.None? && v.Arr?
      modifies this
      ensures Emitted(WriteValue(o, md, lib, Arranged(o, v), depth), ok)
      decreases v, 1
    {
      hide SortTree;
      if md != 0 && depth + 1 > md {
        ArrangedIsArray(o, v);
        Fail(DumpMaxDepthExceeded);
        return false;
      }
      ArrayText(o, md, lib, v, depth);
      hide WriteValue, WriteElements;
      if |v.items| == 0 {
        Append([LBRACKET, RBRACKET]);
        return true;
      }
      Append([LBRACKET]);
      ok := WriteItems(v, o, depth, md);
    }

    /** The loop over the elements, and the closing bracket. */
    method WriteItems(v: Json, o: DumpOptions, depth: nat, md: nat) returns (ok: bool)
      requires 1 <= width <= 64 && error.None? && v.Arr? && |v.items| > 0 && Arranged(o, v).Arr? &&
        |Arranged(o, v).items| == |v.items|
      modifies this
      ensures Emitted(WriteElements(o, md, lib, Arranged(o, v), 0, depth), ok)
      decreases v, 0
    {
      hide WriteValue, WriteElements, ElementsTail, SortTree, Arranged, Indent;
      ghost var a := Arranged(o, v);
      ghost var done: bytes := [];
      var i := 0;
      while i < |v.items|
        invariant i <= |v.items| && error.None? && sink == old(sink) + done
        invariant WriteElements(o, md, lib, a, 0, depth) == Then(Text(done), ElementsRest(o, md, lib, a, i, depth))
      {
        ghost var piece := ElementPiece(o, md, lib, a, i, depth);
        ElementContinues(o, md, lib, a, i, depth, done);
        ok := WriteItem(v, i, o, depth, md);
        if !ok {
          return;
        }
        done := done + piece.t;
        i := i + 1;
      }
      ElementsClose(o, md, lib, a, depth);
      WriteIndent(o, depth);
      Append([RBRACKET]);
      ok := true;
    }

    method WriteItem(v: Json, i: nat, o: DumpOptions, depth: nat, md: nat) returns (ok: bool)
      requires 1 <= width <= 64 && error.None? && v.Arr? && i < |v.items| && Arranged(o, v).Arr? &&
        |Arranged(o, v).items| == |v.items|
      modifies this
      ensures Emitted(ElementPiece(o, md, lib, Arranged(o, v), i, depth), ok)
      decreases v.items[i], 3
    {
      hide WriteValue, SortTree, Arranged, Indent;
      ArrangedItem(o, v, i);
      if i > 0 {
        Append([COMMA]);
      }
      WriteIndent(o, depth + 1);
      ok := WriteValueTo(v.items[i], o, depth + 1, md);
    }

    /** The entries in emission order: std::sort by key under sort_keys. */
    method EmissionOrder(ms: seq<Member>, o: DumpOptions) returns (es: seq<Member>)
      ensures es == if o.sortKeys then SortMembers(ms) else ms
      ensures forall m :: m in es ==> m in ms
    {
      es := if o.sortKeys then SortMembers(ms) else ms;
      forall m | m in es ensures m in ms { assert m in multiset(es); }
    }

    method WriteObject(v: Json, o: DumpOptions, depth: nat, md: nat) returns (ok: bool)
      requires 1 <= width <= 64 && error.None? && v.Obj?
      modifies this
      ensures Emitted(WriteValue(o, md, lib, Arranged(o, v), depth), ok)
      decreases v, 1
    {
      hide SortTree, Arranged, WriteValue, WriteMembers;
      ArrangedMembers(o, v);
      ObjectText(o, md, lib, v, depth);
      if md != 0 && depth + 1 > md {
        Fail(DumpMaxDepthExceeded);
        return false;
      }
      if |v.members| == 0 {
        Append([LBRACE, RBRACE]);
        return true;
      }
      Append([LBRACE]);
      var es := EmissionOrder(v.members, o);
      ok := WriteEntries(v, es, o, depth, md);
    }

    /** The loop over the entries in emission order, and the closing brace. */
    method WriteEntries(v: Json, es: seq<Member>, o: DumpOptions, depth: nat, md: nat) returns (ok: bool)
      requires 1 <= width <= 64 && error.None? && v.Obj? && |es| > 0 && IsArranged(o, es, Arranged(o, v))
      requires forall m :: m in es ==> m in v.members
      modifies this
      ensures Emitted(WriteMembers(o, md, lib, Arranged(o, v), 0, depth), ok)
      decreases v, 0
    {
      hide WriteValue, WriteMembers, MembersTail, SortTree, Arranged, Indent;
      ghost var a := Arranged(o, v);
      ghost var done: bytes := [];
      var i := 0;
      while i < |es|
        invariant i <= |es| && error.None? && sink == old(sink) + done
        invariant WriteMembers(o, md, lib, a, 0, depth) == Then(Text(done), MembersRest(o, md, lib, a, i, depth))
      {
        ghost var piece := MemberPiece(o, md, lib, a, i, depth);
        MemberContinues(o, md, lib, a, i, depth, done);
        assert es[i] in v.members;
        ok := WriteMember(v, es[i], i, o, depth, md);
        if !ok {
          return;
        }
        done := done + piece.t;
        i := i + 1;
      }
      MembersClose(o, md, lib, a, depth);
      WriteIndent(o, depth);
      Append([RBRACE]);
      ok := true;
    }

    /** One entry: comma, indentation, key, separator, value. */
    method WriteMember(ghost v: Json, e: Member, i: nat, o: DumpOptions, depth: nat, md: nat) returns (ok: bool)
      requires 1 <= width <= 64 && error.None? && v.Obj? && e in v.members
      modifies this
      ensures Emitted(Then(MemberHead(o, i, depth, e.key), WriteValue(o, md, lib, Arranged(o, e.value), depth + 1)), ok)
      decreases e.value, 3
    {
      hide WriteValue, MemberHead, Arranged;
      ok := WriteMemberHead(e.key, i, o, depth);
      if !ok {
        return;
      }
      ok := WriteValueTo(e.value, o, depth + 1, md);
    }

    method WriteMemberHead(key: bytes, i: nat, o: DumpOptions, depth: nat) returns (ok: bool)
      requires 1 <= width <= 64 && error.None?
      modifies this
      ensures Emitted(MemberHead(o, i, depth, key), ok)
    {
      hide Token, Indent;
      if i > 0 {
        Append([COMMA]);
      }
      WriteIndent(o, depth + 1);
      ok := WriteEscaped(key, o.ascii);
      if !ok {
        return;
      }
      Append(if o.pretty then [COLON, SPACE] else [COLON]);
    }

    /** dump_value_to. */
    method DumpValueTo(v: Json, o: DumpOptions, md: nat) returns (ok: bool)
      requires 1 <= width <= 64 && error.None?
      modifies this
      ensures Emitted(DumpSpec.Dump(o, md, lib, v), ok)
    {
      if o.pretty && o.indentChar != SPACE && o.indentChar != TAB {
        Fail(InvalidIndentChar);
        return false;
      }
      ok := WriteValueTo(v, o, 0, md);
    }
  }

  lemma EscapedHit(s: bytes, run: nat, hit: nat)
    requires run <= hit < |s| && IsStop(s[hit]) && forall i :: run <= i < hit ==> !IsStop(s[i])
    ensures Escaped(s, run) == s[run..hit] + (EscapeOf(s[hit]) + Escaped(s, hit + 1))
  {
    EscapedPlain(s, run, hit);
  }

  lemma Prefixed(a: bytes, b: bytes, c: bytes, d: bytes)
    ensures a + (b + (c + d)) == a + b + c + d
    ensures b == [] ==> a + (b + (c + d)) == a + c + d
  {
  }

  lemma AsciiContinues(s: bytes, p: nat, done: bytes)
    requires p < |s| && AsciiAt(s, p).Step?
    ensures Then(Text(done), AsciiEscaped(s, p)) ==
      Then(Text(done + AsciiAt(s, p).text), AsciiEscaped(s, p + AsciiAt(s, p).len))
  {
  }

  /** Comma, indentation, key and separator of entry i. */
  function MemberHead(o: DumpOptions, i: nat, depth: nat, key: bytes): Written {
    Then(Text((if i > 0 then [COMMA] else []) + Indent(o, depth + 1)), Then(Token(key, o.ascii), Text(KeySep(o))))
  }

  function ElementPiece(o: DumpOptions, md: nat, lib: FloatLib, v: Json, i: nat, depth: nat): Written
    requires v.Arr? && i < |v.items|
  {
    Then(Text((if i > 0 then [COMMA] else []) + Indent(o, depth + 1)), WriteValue(o, md, lib, v.items[i], depth + 1))
  }

  function ElementsRest(o: DumpOptions, md: nat, lib: FloatLib, v: Json, i: nat, depth: nat): Written
    requires v.Arr? && i <= |v.items| && |v.items| > 0
  {
    if i == 0 then WriteElements(o, md, lib, v, 0, depth) else ElementsTail(o, md, lib, v, i, depth)
  }

  function MemberPiece(o: DumpOptions, md: nat, lib: FloatLib, v: Json, i: nat, depth: nat): Written
    requires v.Obj? && i < |v.members|
  {
    Then(MemberHead(o, i, depth, v.members[i].key), WriteValue(o, md, lib, v.members[i].value, depth + 1))
  }

  function MembersRest(o: DumpOptions, md: nat, lib: FloatLib, v: Json, i: nat, depth: nat): Written
    requires v.Obj? && i <= |v.members| && |v.members| > 0
  {
    if i == 0 then WriteMembers(o, md, lib, v, 0, depth) else MembersTail(o, md, lib, v, i, depth)
  }

  /** a's entries are es, each with its value arranged. */
  ghost predicate IsArranged(o: DumpOptions, es: seq<Member>, a: Json) {
    a.Obj? && |a.members| == |es|
    && forall i :: 0 <= i < |es| ==> a.members[i].key == es[i].key && a.members[i].value == Arranged(o, es[i].value)
  }

  lemma ArrangedIsArray(o: DumpOptions, v: Json)
    requires v.Arr?
    ensures Arranged(o, v).Arr? && |Arranged(o, v).items| == |v.items|
  {
  }

  lemma ArrangedItem(o: DumpOptions, v: Json, i: nat)
    requires v.Arr? && i < |v.items|
    ensures Arranged(o, v).Arr? && |Arranged(o, v).items| == |v.items| &&
      Arranged(o, v).items[i] == Arranged(o, v.items[i])
  {
  }

  lemma ArrayText(o: DumpOptions, md: nat, lib: FloatLib, v: Json, depth: nat)
    requires v.Arr? && !DepthExceeded(md, depth)
    ensures Arranged(o, v).Arr? && |Arranged(o, v).items| == |v.items|
    ensures WriteValue(o, md, lib, Arranged(o, v), depth) ==
      if |v.items| == 0 then Text([LBRACKET, RBRACKET])
      else Then(Text([LBRACKET]), WriteElements(o, md, lib, Arranged(o, v), 0, depth))
  {
    hide WriteElements, Arranged;
    ArrangedIsArray(o, v);
  }

  lemma ObjectText(o: DumpOptions, md: nat, lib: FloatLib, v: Json, depth: nat)
    requires v.Obj? && Arranged(o, v).Obj? && |Arranged(o, v).members| == |v.members|
    ensures var a := Arranged(o, v);
      WriteValue(o, md, lib, a, depth) ==
        if DepthExceeded(md, depth) then Failed(DumpMaxDepthExceeded)
        else if |v.members| == 0 then Text([LBRACE, RBRACE])
          else Then(Text([LBRACE]), WriteMembers(o, md, lib, a, 0, depth))
  {
    hide WriteMembers, Arranged;
  }

  /** The arranged object's entries are the entries in emission order, each with its value arranged. */
  lemma ArrangedMembers(o: DumpOptions, v: Json)
    requires v.Obj?
    ensures var es := if o.sortKeys then SortMembers(v.members) else v.members;
      IsArranged(o, es, Arranged(o, v)) && |es| == |v.members|
  {
    SortCommutes(v.members, SortValues(v));
  }

  lemma ElementContinues(o: DumpOptions, md: nat, lib: FloatLib, v: Json, i: nat, depth: nat, done: bytes)
    requires v.Arr? && i < |v.items|
    ensures var piece := ElementPiece(o, md, lib, v, i, depth);
      Then(Text(done), ElementsRest(o, md, lib, v, i, depth)) ==
        if piece.Failed? then piece else Then(Text(done + piece.t), ElementsRest(o, md, lib, v, i + 1, depth))
  {
    hide WriteValue, Indent;
    var tail := ElementsTail(o, md, lib, v, i + 1, depth);
    var w := WriteValue(o, md, lib, v.items[i], depth + 1);
    assert i > 0 ==>
      ElementsTail(o, md, lib, v, i, depth) == Then(Text([COMMA]), WriteElements(o, md, lib, v, i, depth));
    hide ElementsTail;
    if w.Text? && tail.Text? {
      var c: bytes := if i > 0 then [COMMA] else [];
      assert done + (c + (Indent(o, depth + 1) + (w.t + tail.t))) == done + (c + Indent(o, depth + 1) + w.t) + tail.t;
    }
  }

  lemma ElementsClose(o: DumpOptions, md: nat, lib: FloatLib, v: Json, depth: nat)
    requires v.Arr? && |v.items| > 0
    ensures ElementsRest(o, md, lib, v, |v.items|, depth) == Text(Indent(o, depth) + [RBRACKET])
  {
  }

  lemma MemberContinues(o: DumpOptions, md: nat, lib: FloatLib, v: Json, i: nat, depth: nat, done: bytes)
    requires v.Obj? && i < |v.members|
    ensures var piece := MemberPiece(o, md, lib, v, i, depth);
      Then(Text(done), MembersRest(o, md, lib, v, i, depth)) ==
        if piece.Failed? then piece else Then(Text(done + piece.t), MembersRest(o, md, lib, v, i + 1, depth))
  {
    hide WriteValue, Indent, Token, KeySep;
    var tail := MembersTail(o, md, lib, v, i + 1, depth);
    var w := WriteValue(o, md, lib, v.members[i].value, depth + 1);
    var k := Token(v.members[i].key, o.ascii);
    assert i > 0 ==> MembersTail(o, md, lib, v, i, depth) == Then(Text([COMMA]), WriteMembers(o, md, lib, v, i, depth));
    hide MembersTail;
    if k.Text? && w.Text? && tail.Text? {
      var c: bytes := if i > 0 then [COMMA] else [];
      var ind, sep := Indent(o, depth + 1), KeySep(o);
      assert done + (c + (ind + (k.t + (sep + (w.t + tail.t))))) == done + (((c + ind) + (k.t + sep)) + w.t) + tail.t;
    }
  }

  lemma MembersClose(o: DumpOptions, md: nat, lib: FloatLib, v: Json, depth: nat)
    requires v.Obj? && |v.members| > 0
    ensures MembersRest(o, md, lib, v, |v.members|, depth) == Text(Indent(o, depth) + [RBRACE])
  {
  }
}
