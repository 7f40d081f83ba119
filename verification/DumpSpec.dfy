/**
 What the writer emits for a value, as a function: the text, or the first failure in emission order. The
 sort_keys choice is a rewriting of the tree; the depth limit only decides between the text and a failure.
 */
module DumpSpec {
  import opened Core
  import opened Grammar
  import opened Utf8
  import opened Numbers
  import opened StringWriter
  import opened ByteOrder

  datatype DumpOptions = DumpOptions(pretty: bool, indent: nat, indentChar: byte, sortKeys: bool, ascii: bool)

  const SPACE: byte := 0x20
  const TAB: byte := 0x09

  /** std::isfinite on the bit pattern. */
  predicate IsFinite(d: Double) { d % 0x8000_0000_0000_0000 < 0x7FF0_0000_0000_0000 }

  predicate IsPoint(c: byte) { c == DOT || IsExpMark(c) }
  predicate HasPoint(t: bytes) { exists i :: 0 <= i < |t| && IsPoint(t[i]) }

  /** A finite double's text: to_chars, with ".0" after a bare integer. */
  function DoubleText(lib: FloatLib, d: Double): bytes {
    var t := lib.toChars(d);
    if HasPoint(t) then t else t + [DOT, 0x30]
  }

  /**
   What this model asks of the C++ library: to_chars writes a number token, and from_chars reads the emitted text back.
   */
  ghost predicate FloatsRoundTrip(lib: FloatLib) {
    forall d: Double :: IsFinite(d) ==>
      IsNumberToken(lib.toChars(d), 0, |lib.toChars(d)|) && lib.fromChars(DoubleText(lib, d)) == InRange(d)
  }

  function Repeat(c: byte, n: nat): (t: bytes)
    ensures |t| == n && forall i :: 0 <= i < n ==> t[i] == c
  {
    seq(n, _ => c)
  }

  /** write_indent, when pretty. */
  function Indent(o: DumpOptions, depth: nat): bytes {
    if o.pretty then [LF] + Repeat(o.indentChar, o.indent * depth) else []
  }

  function KeySep(o: DumpOptions): bytes { if o.pretty then [COLON, SPACE] else [COLON] }

  /** Emission in order; the first failure wins. */
  function Then(a: Written, b: Written): (r: Written)
    ensures r.Text? <==> a.Text? && b.Text?
    ensures r.Text? ==> r.t == a.t + b.t
  {
    if a.Failed? then a else if b.Failed? then b else Text(a.t + b.t)
  }

  predicate DepthExceeded(md: nat, depth: nat) { md != 0 && depth + 1 > md }

  /** A value inside `depth` open containers. */
  function WriteValue(o: DumpOptions, md: nat, lib: FloatLib, v: Json, depth: nat): Written
    decreases v, 2, 0
  {
    match v
    case Null => Text(NULL)
    case Bool(b) => Text(if b then TRUE else FALSE)
    case Int(i) => Text(IntText(i))
    case Float(d) => if IsFinite(d) then Text(DoubleText(lib, d)) else Failed(NonFiniteDouble)
    case Str(s) => Token(s, o.ascii)
    case Arr(items) =>
      if DepthExceeded(md, depth) then Failed(DumpMaxDepthExceeded)
      else if |items| == 0 then Text([LBRACKET, RBRACKET])
      else Then(Text([LBRACKET]), WriteElements(o, md, lib, v, 0, depth))
    case Obj(ms) =>
      if DepthExceeded(md, depth) then Failed(DumpMaxDepthExceeded)
      else if |ms| == 0 then Text([LBRACE, RBRACE])
      else Then(Text([LBRACE]), WriteMembers(o, md, lib, v, 0, depth))
  }

  /** Element i with its indentation, and everything after it up to the closing bracket. */
  function WriteElements(o: DumpOptions, md: nat, lib: FloatLib, v: Json, i: nat, depth: nat): Written
    requires v.Arr? && i < |v.items|
    decreases v, 1, 2 * (|v.items| - i)
  {
    Then(Text(Indent(o, depth + 1)),
         Then(WriteValue(o, md, lib, v.items[i], depth + 1), ElementsTail(o, md, lib, v, i + 1, depth)))
  }

  function ElementsTail(o: DumpOptions, md: nat, lib: FloatLib, v: Json, i: nat, depth: nat): Written
    requires v.Arr? && i <= |v.items|
    decreases v, 1, 2 * (|v.items| - i) + 1
  {
    if i == |v.items| then Text(Indent(o, depth) + [RBRACKET])
    else Then(Text([COMMA]), WriteElements(o, md, lib, v, i, depth))
  }

  function WriteMembers(o: DumpOptions, md: nat, lib: FloatLib, v: Json, i: nat, depth: nat): Written
    requires v.Obj? && i < |v.members|
    decreases v, 1, 2 * (|v.members| - i)
  {
    Then(Text(Indent(o, depth + 1)),
         Then(Token(v.members[i].key, o.ascii),
              Then(Text(KeySep(o)),
                   Then(WriteValue(o, md, lib, v.members[i].value, depth + 1),
                     MembersTail(o, md, lib, v, i + 1, depth)))))
  }

  function MembersTail(o: DumpOptions, md: nat, lib: FloatLib, v: Json, i: nat, depth: nat): Written
    requires v.Obj? && i <= |v.members|
    decreases v, 1, 2 * (|v.members| - i) + 1
  {
    if i == |v.members| then Text(Indent(o, depth) + [RBRACE])
    else Then(Text([COMMA]), WriteMembers(o, md, lib, v, i, depth))
  }

  // ---- sort_keys ----

  /** The tree with the entries of every object in key order. */
  function SortTree(v: Json): (r: Json)
    decreases v, 1
  {
    match v
    case Arr(items) => Arr(seq(|items|, i requires 0 <= i < |items| => SortTree(items[i])))
    case Obj(ms) => Obj(SortMembers(SortValues(v)))
    case _ => v
  }

  function SortValues(v: Json): (r: seq<Member>)
    requires v.Obj?
    ensures |r| == |v.members| && forall i :: 0 <= i < |r| ==> r[i].key == v.members[i].key
    decreases v, 0
  {
    var ms := v.members;
    seq(|ms|, i requires 0 <= i < |ms| => Member(ms[i].key, SortTree(ms[i].value)))
  }

  function Arranged(o: DumpOptions, v: Json): Json { if o.sortKeys then SortTree(v) else v }

  predicate BadIndent(o: DumpOptions) { o.pretty && o.indentChar != SPACE && o.indentChar != TAB }

  /** dump_value_to under the captured depth limit. */
  function Dump(o: DumpOptions, md: nat, lib: FloatLib, v: Json): Written {
    if BadIndent(o) then Failed(InvalidIndentChar) else WriteValue(o, md, lib, Arranged(o, v), 0)
  }

  // ---- depth ----

  /** Containers on the deepest path. */
  function Depth(v: Json): nat
    decreases v, 1
  {
    match v
    case Arr(items) => 1 + DeepestItem(v, 0)
    case Obj(ms) => 1 + DeepestMember(v, 0)
    case _ => 0
  }

  function DeepestItem(v: Json, i: nat): nat
    requires v.Arr? && i <= |v.items|
    decreases v, 0, |v.items| - i
  {
    if i == |v.items| then 0 else Max(Depth(v.items[i]), DeepestItem(v, i + 1))
  }

  function DeepestMember(v: Json, i: nat): nat
    requires v.Obj? && i <= |v.members|
    decreases v, 0, |v.members| - i
  {
    if i == |v.members| then 0 else Max(Depth(v.members[i].value), DeepestMember(v, i + 1))
  }

  function Max(a: nat, b: nat): nat { if a < b then b else a }

  predicate Within(md: nat, n: nat) { md == 0 || n <= md }

  /**
   The depth limit never changes the text: it is there exactly when the limit is kept and the unlimited dump succeeds.
   */
  lemma {:induction false} LimitDecides(o: DumpOptions, md: nat, lib: FloatLib, v: Json, depth: nat)
    requires Within(md, depth)
    ensures var w := WriteValue(o, md, lib, v, depth); var u := WriteValue(o, 0, lib, v, depth);
      (w.Text? <==> u.Text? && Within(md, depth + Depth(v))) && (w.Text? ==> w == u)
    decreases v, 2, 0
  {
    if v.Arr? && |v.items| > 0 && !DepthExceeded(md, depth) {
      LimitDecidesElements(o, md, lib, v, 0, depth);
    } else if v.Obj? && |v.members| > 0 && !DepthExceeded(md, depth) {
      LimitDecidesMembers(o, md, lib, v, 0, depth);
    }
  }

  lemma {:induction false} LimitDecidesElements(o: DumpOptions, md: nat, lib: FloatLib, v: Json, i: nat, depth: nat)
    requires v.Arr? && i < |v.items| && Within(md, depth + 1)
    ensures var w := WriteElements(o, md, lib, v, i, depth); var u := WriteElements(o, 0, lib, v, i, depth);
      (w.Text? <==> u.Text? && Within(md, depth + 1 + DeepestItem(v, i))) && (w.Text? ==> w == u)
    decreases v, 1, |v.items| - i
  {
    LimitDecides(o, md, lib, v.items[i], depth + 1);
    if i + 1 < |v.items| { LimitDecidesElements(o, md, lib, v, i + 1, depth); }
  }

  lemma {:induction false} LimitDecidesMembers(o: DumpOptions, md: nat, lib: FloatLib, v: Json, i: nat, depth: nat)
    requires v.Obj? && i < |v.members| && Within(md, depth + 1)
    ensures var w := WriteMembers(o, md, lib, v, i, depth); var u := WriteMembers(o, 0, lib, v, i, depth);
      (w.Text? <==> u.Text? && Within(md, depth + 1 + DeepestMember(v, i))) && (w.Text? ==> w == u)
    decreases v, 1, |v.members| - i
  {
    LimitDecides(o, md, lib, v.members[i].value, depth + 1);
    if i + 1 < |v.members| { LimitDecidesMembers(o, md, lib, v, i + 1, depth); }
  }

  // ---- what can be written ----

  /** The exponent field of a double; an infinity or a NaN has all its bits set. */
  function ExponentOf(d: Double): nat { d / 0x10_0000_0000_0000 % 0x800 }

  lemma FiniteMeans(d: Double)
    ensures IsFinite(d) <==> ExponentOf(d) != 0x7FF
  {
    var e, f := d / 0x10_0000_0000_0000, d % 0x10_0000_0000_0000;
    assert d == e * 0x10_0000_0000_0000 + f;
    assert e < 0x1000;
    if e < 0x800 {
      assert e % 0x800 == e && d % 0x8000_0000_0000_0000 == d;
    } else {
      assert e % 0x800 == e - 0x800 && d % 0x8000_0000_0000_0000 == d - 0x8000_0000_0000_0000;
    }
  }

  /** Doubles are finite and, in ascii mode, strings and keys are well-formed UTF-8. */
  ghost predicate Writable(ascii: bool, v: Json) {
    match v
    case Float(d) => ExponentOf(d) != 0x7FF
    case Str(s) => ascii ==> WellFormed(s)
    case Arr(items) => forall i :: 0 <= i < |items| ==> Writable(ascii, items[i])
    case Obj(ms) => forall i :: 0 <= i < |ms| ==> (ascii ==> WellFormed(ms[i].key)) && Writable(ascii, ms[i].value)
    case _ => true
  }

  lemma TokenWritable(raw: bytes, ascii: bool)
    ensures Token(raw, ascii).Text? <==> (ascii ==> WellFormed(raw))
  {
    AsciiIsGrammar(raw, 0);
  }

  /** Without a depth limit the writer fails on nothing else. */
  lemma {:induction false} WritesWritable(o: DumpOptions, lib: FloatLib, v: Json, depth: nat)
    ensures WriteValue(o, 0, lib, v, depth).Text? <==> Writable(o.ascii, v)
    decreases v, 1, 0
  {
    hide ExponentOf, IsFinite;
    match v
    case Float(d) => FiniteMeans(d);
    case Str(s) => TokenWritable(s, o.ascii);
    case Arr(items) => if |items| > 0 { ElementsWritable(o, lib, v, 0, depth); }
    case Obj(ms) => if |ms| > 0 { MembersWritable(o, lib, v, 0, depth); }
    case _ =>
  }

  lemma {:induction false} ElementsWritable(o: DumpOptions, lib: FloatLib, v: Json, i: nat, depth: nat)
    requires v.Arr? && i < |v.items|
    ensures WriteElements(o, 0, lib, v, i, depth).Text? <==> forall k :: i <= k < |v.items| ==>
      Writable(o.ascii, v.items[k])
    decreases v, 0, |v.items| - i
  {
    hide WriteValue, Writable;
    WritesWritable(o, lib, v.items[i], depth + 1);
    if i + 1 < |v.items| { ElementsWritable(o, lib, v, i + 1, depth); }
  }

  lemma {:induction false} MembersWritable(o: DumpOptions, lib: FloatLib, v: Json, i: nat, depth: nat)
    requires v.Obj? && i < |v.members|
    ensures WriteMembers(o, 0, lib, v, i, depth).Text? <==>
      forall k :: i <= k < |v.members| ==>
        (o.ascii ==> WellFormed(v.members[k].key)) && Writable(o.ascii, v.members[k].value)
    decreases v, 0, |v.members| - i
  {
    hide WriteValue, Writable, Token;
    WritesWritable(o, lib, v.members[i].value, depth + 1);
    TokenWritable(v.members[i].key, o.ascii);
    if i + 1 < |v.members| { MembersWritable(o, lib, v, i + 1, depth); }
  }

  // ---- what sort_keys does to the entries ----

  /** b holds a's entries with every value's own objects sorted. */
  ghost predicate SortedBelow(a: seq<Member>, b: seq<Member>) {
    |a| == |b| && forall i :: 0 <= i < |a| ==> b[i] == Member(a[i].key, SortTree(a[i].value))
  }

  lemma SortedBelowCons(m: Member, x: Member, a: seq<Member>, b: seq<Member>)
    requires SortedBelow(a, b) && x == Member(m.key, SortTree(m.value))
    ensures SortedBelow([m] + a, [x] + b)
  {
    hide SortTree;
  }

  lemma SortedBelowTail(a: seq<Member>, b: seq<Member>)
    requires SortedBelow(a, b) && |a| > 0
    ensures SortedBelow(a[1..], b[1..]) && b[0] == Member(a[0].key, SortTree(a[0].value))
  {
    hide SortTree;
  }

  lemma {:induction false} InsertCommutes(a: seq<Member>, b: seq<Member>, m: Member)
    requires SortedBelow(a, b)
    ensures SortedBelow(Insert(a, m), Insert(b, Member(m.key, SortTree(m.value))))
  {
    var x := Member(m.key, SortTree(m.value));
    assert |a| == |b|;
    if |a| == 0 {
      assert a == [] && b == [];
      SortedBelowCons(m, x, a, b);
    } else {
      SortedBelowTail(a, b);
      hide SortedBelow, SortTree, BytesLess;
      if BytesLess(m.key, a[0].key) {
        SortedBelowCons(m, x, a, b);
      } else {
        InsertCommutes(a[1..], b[1..], m);
        SortedBelowCons(a[0], b[0], Insert(a[1..], m), Insert(b[1..], x));
      }
    }
  }

  /** Sorting the entries first and the values afterwards gives the sorted tree. */
  lemma {:induction false} SortCommutes(a: seq<Member>, b: seq<Member>)
    requires SortedBelow(a, b)
    ensures SortedBelow(SortMembers(a), SortMembers(b))
  {
    hide SortTree;
    if |a| > 0 {
      var k := |a| - 1;
      SortCommutes(a[..k], b[..k]);
      InsertCommutes(SortMembers(a[..k]), SortMembers(b[..k]), a[k]);
    }
  }
}
