/**
 The recursive-descent parser: a cursor, a depth counter and a first-error-wins slot over a padded buffer whose
 unread part it never changes. Every step returns what ParserSpec says, also after a comment error was recorded
 without stopping the descent.
 */
module Parser {
  import opened Core
  import opened Grammar
  import opened Strings
  import opened InPlace
  import opened StringTokens
  import opened Json5Lexer
  import opened Json5Scan
  import opened ParserSpec
  import opened Probing
  import opened KeyIndexes

  const KEY_INDEX_THRESHOLD: nat := 256

  /** The container specifications from the opening bracket on, depth gate included. */
  function ArrayAt(cfg: Config, b: Input, q: nat, depth: nat): Parsed<Json>
    requires q < |b.buf|
  {
    if TooDeep(cfg, depth) then Fail(Positioned(MaxDepthExceeded, q)) else ParseArray(cfg, b, q + 1, depth + 1)
  }

  function ObjectAt(cfg: Config, b: Input, q: nat, depth: nat): Parsed<Json>
    requires q < |b.buf|
  {
    if TooDeep(cfg, depth) then Fail(Positioned(MaxDepthExceeded, q)) else ParseObject(cfg, b, q + 1, depth + 1)
  }

  /** What a step is bound to give: an error already in the slot decides it. */
  ghost function Expect<T>(slot: Option<Error>, r: Parsed<T>): Parsed<T> {
    match slot
    case Some(e) => Fail(e)
    case None => r
  }

  /** A step's outcome is the expected one: the value with the cursor after it, or the expected error in the slot. */
  ghost predicate Agrees<T>(spec: Parsed<T>, ok: bool, v: T, slot: Option<Error>, curr: nat) {
    match spec
    case Ok(x, n) => ok && slot.None? && v == x && curr == n
    case Fail(e) => slot == Some(e)
  }

  /** One member's value, inserted last-wins. */
  function MemberValue(cfg: Config, b: Input, p: nat, depth: nat, ms: seq<Member>, key: bytes): Parsed<seq<Member>>
    requires p <= |b.buf|
  {
    match ParseValue(cfg, b, p, depth, false)
    case Fail(e) => Fail(e)
    case Ok(v, n) => Ok(Upsert(ms, key, v), n)
  }

  class Parser {
    const mem: array<byte>
    const base: nat
    const size: nat
    const end: nat
    const width: nat
    const cfg: Config
    const hash: Hash
    ghost const text: bytes
    var curr: nat
    var depth: nat
    var error: Option<Error>

    constructor (mem: array<byte>, base: nat, size: nat, end: nat, width: nat, cfg: Config, hash: Hash,
        ghost text: bytes)
      requires 1 <= width <= 64 && end <= size == |text| && Sealed(text, end) && Unread(mem, base, text, PADDING, 0)
      ensures this.mem == mem && this.base == base && this.size == size && this.end == end && this.cfg == cfg
      ensures this.text == text && Good() && curr == 0 && depth == 0 && error.None?
    {
      this.mem, this.base, this.size, this.end, this.width := mem, base, size, end, width;
      this.cfg, this.hash, this.text := cfg, hash, text;
      curr, depth, error := 0, 0, None;
    }

    /** How far in-place decoding can have written: never behind the cursor, never past the logical end. */
    ghost function Floor(): nat
      reads `curr
    {
      if curr < end then curr else end
    }

    /** Everything unread, and everything past the logical end, is still the text. */
    ghost predicate Good()
      reads this, mem
    {
      1 <= width <= 64 && end <= size == |text| && Sealed(text, end) && curr <= size &&
        Unread(mem, base, text, PADDING, Floor())
    }

    ghost function Buf(): Input
      requires end <= |text|
    {
      Input(text, end)
    }

    /** Record a failure; the first one wins. */
    method Record(e: Error)
      modifies this`error
      ensures error == (if old(error).Some? then old(error) else Some(e))
    {
      if error.None? {
        error := Some(e);
      }
    }

    method SkipWhitespace()
      requires Good()
      modifies this`curr, this`error
      ensures Good() && curr >= old(curr)
      ensures Agrees(Expect(old(error), Skip(cfg, Buf(), old(curr))), true, (), error, curr)
    {
      if cfg.json5 {
        var view := mem[base..base + size];
        ViewSame(mem, base, text, curr, end, view);
        TriviaSame(view, text, curr, end, curr);
        var p, unclosed := SkipTrivia(view, curr, end);
        curr := p;
        if unclosed {
          Record(Positioned(UnexpectedEndOfInput, end));
        }
      } else {
        curr := SkipWhitespaceBlocks(mem, base, curr, width, text);
      }
    }

    /** Compare a short word with the padded buffer. */
    method MatchWord(lit: bytes) returns (m: bool)
      requires Good() && |lit| <= 8 && 0 !in lit
      ensures m == LiteralAt(text, curr, size, lit)
    {
      var i := 0;
      while i < |lit| && mem[base + curr + i] == lit[i]
        invariant i <= |lit| && (i > 0 ==> curr + i <= size)
        invariant forall k {:trigger lit[k]} :: 0 <= k < i ==> text[curr + k] == lit[k]
      {
        assert lit[i] != 0;
        i := i + 1;
      }
      m := i == |lit|;
      if !m { assert At(text, curr + i) != lit[i]; }
    }

    method ParseLiteralToken() returns (ok: bool, out: Json)
      requires Good()
      modifies this`curr, this`error
      ensures ok ==> Good() && curr > old(curr)
      ensures Agrees(Expect(old(error), ParseLiteral(cfg, Buf(), old(curr))), ok, out, error, curr)
    {
      var isTrue := MatchWord(TRUE);
      var isNull := MatchWord(NULL);
      var isFalse := MatchWord(FALSE);
      hide LiteralAt;
      out := Null;
      if isTrue {
        curr, out := curr + 4, Bool(true);
      } else if isNull {
        curr := curr + 4;
      } else if isFalse {
        curr, out := curr + 5, Bool(false);
      } else {
        Record(Positioned(InvalidLiteral, curr));
        return false, out;
      }
      if !cfg.json5 && !ValidAfterLiteral(mem[base + curr]) {
        Record(Positioned(InvalidLiteralTrailing, curr));
        return false, out;
      }
      ok := true;
    }

    /** Move to the end of a token, or record why there is none. */
    method Take<T>(r: Parsed<T>, dflt: T) returns (ok: bool, out: T)
      modifies this`curr, this`error
      ensures Agrees(Expect(old(error), r), ok, out, error, curr)
      ensures ok == r.Ok? && (ok ==> curr == r.next)
    {
      match r {
        case Fail(e) =>
          Record(e);
          return false, dflt;
        case Ok(v, n) =>
          curr := n;
          return true, v;
      }
    }

    method ParseNumberToken() returns (ok: bool, out: Json)
      requires Good()
      modifies this`curr, this`error
      ensures ok ==> Good() && curr > old(curr)
      ensures Agrees(Expect(old(error), NumberToken(cfg, Buf(), old(curr))), ok, out, error, curr)
    {
      hide ParseNumber, ParseNumber5, SameTo;
      var view := mem[base..base + size];
      ViewSame(mem, base, text, curr, end, view);
      var r: Parsed<Json>;
      if cfg.json5 {
        Number5Same(cfg.lib, view, text, curr, end);
        r := ParseNumberJson5(cfg.lib, view, curr, end);
      } else {
        NumberSame(cfg.lib, view, text, curr, end);
        r := ParseNumberRfc(cfg.lib, view, curr, end);
      }
      ok, out := Take(r, Null);
    }

    /** parse_string: the quote test, then the RFC or the JSON5 body. */
    method ParseStringToken() returns (ok: bool, out: bytes)
      requires Good()
      modifies this`curr, this`error, mem
      ensures ok ==> Good() && curr > old(curr)
      ensures Agrees(Expect(old(error), StringToken(cfg, Buf(), old(curr))), ok, out, error, curr)
    {
      hide ParseString, ParseString5;
      if curr >= end || mem[base + curr] != QUOTE {
        Record(Positioned(ExpectedQuote, curr));
        return false, [];
      }
      var r: Parsed<bytes>;
      if cfg.json5 {
        r := ParseStringJson5(mem, base, curr, end, QUOTE, cfg.strictUtf8, text);
      } else {
        r := ParseStringRfc(mem, base, curr, end, width, cfg.strictUtf8, text);
        if r.Ok? { StringSealed(cfg.strictUtf8, Buf(), curr); }
      }
      ok, out := Take(r, []);
    }

    method ParseSingleQuoted() returns (ok: bool, out: bytes)
      requires Good()
      modifies this`curr, this`error, mem
      ensures ok ==> Good() && curr > old(curr)
      ensures Agrees(Expect(old(error), ParseString5(cfg.strictUtf8, Buf(), old(curr), APOSTROPHE)), ok, out, error,
        curr)
    {
      hide ParseString5;
      var r := ParseStringJson5(mem, base, curr, end, APOSTROPHE, cfg.strictUtf8, text);
      ok, out := Take(r, []);
    }

    method ParseIdentifier() returns (ok: bool, out: bytes)
      requires Good() && curr <= end
      modifies this`curr, this`error, mem
      ensures ok ==> Good() && curr > old(curr)
      ensures Agrees(Expect(old(error), ParseIdentKey(cfg, text, old(curr), end)), ok, out, error, curr)
    {
      hide ParseIdentKey;
      var r := ParseIdentifierKey(mem, base, curr, end, size, cfg, text);
      var key := if r.Ok? then Ok(mem[base + curr..base + r.value], r.next) else Fail(r.error);
      ok, out := Take(key, []);
    }

    method ParseStringValue() returns (ok: bool, out: Json)
      requires Good()
      modifies this`curr, this`error, mem
      ensures ok ==> Good() && curr > old(curr)
      ensures Agrees(Expect(old(error), AsString(StringToken(cfg, Buf(), old(curr)))), ok, out, error, curr)
    {
      hide StringToken;
      var t;
      ok, t := ParseStringToken();
      out := Str(t);
    }

    method ParseSingleQuotedValue() returns (ok: bool, out: Json)
      requires Good()
      modifies this`curr, this`error, mem
      ensures ok ==> Good() && curr > old(curr)
      ensures Agrees(Expect(old(error), AsString(ParseString5(cfg.strictUtf8, Buf(), old(curr), APOSTROPHE))), ok, out,
        error, curr)
    {
      hide ParseString5;
      var t;
      ok, t := ParseSingleQuoted();
      out := Str(t);
    }

    /** The scalar cases of parse_value (top) and parse_value_inplace. */
    method ParseScalarToken(top: bool) returns (ok: bool, out: Json)
      requires Good()
      modifies this`curr, this`error, mem
      ensures ok ==> Good() && curr > old(curr)
      ensures Agrees(Expect(old(error), ParseScalar(cfg, Buf(), old(curr), top)), ok, out, error, curr)
    {
      hide StringToken, ParseLiteral, NumberToken, ParseString5;
      var c := mem[base + curr];
      if c == QUOTE {
        ok, out := ParseStringValue();
      } else if c == 0x74 || c == 0x66 || c == 0x6E {
        ok, out := ParseLiteralToken();
      } else if c == MINUS || IsDigit(c) {
        ok, out := ParseNumberToken();
      } else if top && c == 0 && curr >= end {
        Record(Positioned(UnexpectedEndOfInput, curr));
        return false, Null;
      } else if cfg.json5 && c == APOSTROPHE {
        ok, out := ParseSingleQuotedValue();
      } else if cfg.json5 && (c == PLUS || c == DOT || c == 0x49 || c == 0x4E) {
        ok, out := ParseNumberToken();
      } else {
        Record(Positioned(if top then UnexpectedValueCharacter else UnexpectedCharacter, curr));
        return false, Null;
      }
    }

    /** A member key. */
    method ParseKeyToken() returns (ok: bool, key: bytes)
      requires Good()
      modifies this`curr, this`error, mem
      ensures ok ==> Good() && curr > old(curr)
      ensures Agrees(Expect(old(error), ParseKey(cfg, Buf(), old(curr))), ok, key, error, curr)
    {
      hide StringToken, ParseIdentKey, ParseString5;
      if cfg.json5 && curr < end && mem[base + curr] == APOSTROPHE {
        ok, key := ParseSingleQuoted();
      } else if cfg.json5 && curr < end && mem[base + curr] != QUOTE {
        ok, key := ParseIdentifier();
      } else {
        if mem[base + curr] != QUOTE {
          Record(Positioned(ExpectedStringKey, curr));
          return false, [];
        }
        ok, key := ParseStringToken();
      }
    }

    /** Key, strict duplicate test against the keys seen, colon. */
    method ParseKeyAndColon(ms: seq<Member>, seen: set<bytes>) returns (ok: bool, key: bytes)
      requires Good() && seen == Keys(ms)
      modifies this`curr, this`error, mem
      ensures ok ==> Good() && curr > old(curr)
      ensures Agrees(Expect(old(error), ParseKeyColon(cfg, Buf(), old(curr), ms)), ok, key, error, curr)
      ensures ok && cfg.strictKeys ==> key !in seen
    {
      hide Skip, ParseKey;
      SkipWhitespace();
      ok, key := ParseKeyToken();
      if !ok {
        return;
      }
      if cfg.strictKeys && key in seen {
        Record(ContextFree(DuplicateKey));
        return false, key;
      }
      SkipWhitespace();
      if mem[base + curr] != COLON {
        Record(Positioned(ExpectedColon, curr));
        return false, key;
      }
      curr := curr + 1;
    }

    /** After a value: the container closes or another value follows. */
    method ParseSeparatorToken(close: byte) returns (ok: bool, more: More)
      requires Good() && close != 0
      modifies this`curr, this`error
      ensures ok ==> Good() && curr > old(curr)
      ensures Agrees(Expect(old(error), ParseSeparator(cfg, Buf(), old(curr), close)), ok, more, error, curr)
    {
      hide Skip;
      more := Done;
      SkipWhitespace();
      if close == RBRACE && curr >= end {
        Record(Positioned(UnexpectedEndOfObject, curr));
        return false, more;
      }
      var c := mem[base + curr];
      if c == close {
        curr := curr + 1;
        return true, Done;
      }
      if c != COMMA {
        Record(Positioned(if close == RBRACE then ExpectedCommaOrBrace else ExpectedCommaOrBracket, curr));
        return false, more;
      }
      curr := curr + 1;
      if cfg.json5 {
        SkipWhitespace();
        if curr < end && mem[base + curr] == close {
          curr := curr + 1;
          return true, Done;
        }
      }
      return true, Another;
    }

    /** parse_value (top) and parse_value_inplace. */
    method ParseValueInPlace(top: bool) returns (ok: bool, out: Json)
      requires Good()
      modifies this, mem
      ensures depth == old(depth) && (ok ==> Good() && curr > old(curr))
      ensures Agrees(Expect(old(error), ParseValue(cfg, Buf(), old(curr), old(depth), top)), ok, out, error, curr)
      decreases size - curr, 3
    {
      hide Skip, ParseScalar, ParseArray, ParseObject;
      SkipWhitespace();
      var c := mem[base + curr];
      if c == LBRACE {
        ok, out := ParseObjectInPlace();
      } else if c == LBRACKET {
        ok, out := ParseArrayInPlace();
      } else {
        ok, out := ParseScalarToken(top);
      }
    }

    method ParseArrayInPlace() returns (ok: bool, out: Json)
      requires Good() && curr < size
      modifies this, mem
      ensures depth == old(depth) && (ok ==> Good() && curr > old(curr))
      ensures Agrees(Expect(old(error), ArrayAt(cfg, Buf(), old(curr), old(depth))), ok, out, error, curr)
      decreases size - curr, 2
    {
      hide ParseElements, Skip;
      if cfg.maxDepth != 0 && depth + 1 > cfg.maxDepth {
        Record(Positioned(MaxDepthExceeded, curr));
        return false, Null;
      }
      depth := depth + 1;
      curr := curr + 1;
      SkipWhitespace();
      if curr < end && mem[base + curr] == RBRACKET {
        curr := curr + 1;
        ok, out := true, Arr([]);
      } else {
        ok, out := ParseElementsInPlace();
      }
      depth := depth - 1;
    }

    method ParseElementsInPlace() returns (ok: bool, out: Json)
      requires Good()
      modifies this, mem
      ensures depth == old(depth) && (ok ==> Good() && curr > old(curr))
      ensures Agrees(Expect(old(error), ParseElements(cfg, Buf(), old(curr), old(depth), [])), ok, out, error, curr)
      decreases size - curr, 4
    {
      hide ParseValue, ParseSeparator;
      var items: seq<Json> := [];
      ghost var spec := Expect(error, ParseElements(cfg, Buf(), curr, depth, []));
      while true
        invariant Good() && curr >= old(curr) && depth == old(depth)
        invariant spec == Expect(error, ParseElements(cfg, Buf(), curr, depth, items))
        decreases size - curr
      {
        var v, more;
        ok, v := ParseValueInPlace(false);
        if !ok {
          return false, Null;
        }
        ok, more := ParseSeparatorToken(RBRACKET);
        if !ok {
          return false, Null;
        }
        items := items + [v];
        if more.Done? {
          return true, Arr(items);
        }
      }
    }

    method ParseObjectInPlace() returns (ok: bool, out: Json)
      requires Good() && curr < size
      modifies this, mem
      ensures depth == old(depth) && (ok ==> Good() && curr > old(curr))
      ensures Agrees(Expect(old(error), ObjectAt(cfg, Buf(), old(curr), old(depth))), ok, out, error, curr)
      decreases size - curr, 2
    {
      hide ParseMembers, Skip;
      if cfg.maxDepth != 0 && depth + 1 > cfg.maxDepth {
        Record(Positioned(MaxDepthExceeded, curr));
        return false, Null;
      }
      depth := depth + 1;
      curr := curr + 1;
      SkipWhitespace();
      if mem[base + curr] == RBRACE {
        curr := curr + 1;
        ok, out := true, Obj([]);
      } else {
        ok, out := ParseMembersInPlace();
      }
      depth := depth - 1;
    }

    /** The index, once it exists, is correct for the entries and their keys are distinct. */
    ghost predicate Indexed(index: KeyIndex?, ms: seq<Member>)
      reads index
    {
      index != null ==> !cfg.strictKeys && KEY_INDEX_THRESHOLD <= |ms| && index.Valid(KeySeq(ms))
    }

    method ParseMembersInPlace() returns (ok: bool, out: Json)
      requires Good()
      modifies this, mem
      ensures depth == old(depth) && (ok ==> Good() && curr > old(curr))
      ensures Agrees(Expect(old(error), ParseMembers(cfg, Buf(), old(curr), old(depth), [])), ok, out, error, curr)
      decreases size - curr, 5
    {
      hide ParseValue, ParseSeparator, ParseKeyColon, Indexes;
      var entries: seq<Member> := [];
      var seen: set<bytes> := {};
      var index: KeyIndex? := null;
      ghost var spec := Expect(error, ParseMembers(cfg, Buf(), curr, depth, []));
      while true
        invariant Good() && curr >= old(curr) && depth == old(depth)
        invariant DistinctKeys(entries) && seen == Keys(entries)
        invariant (index != null ==> fresh(index)) && Indexed(index, entries)
        invariant spec == Expect(error, ParseMembers(cfg, Buf(), curr, depth, entries))
        decreases size - curr
      {
        var key, more;
        ok, key := ParseKeyAndColon(entries, seen);
        if !ok {
          return false, Null;
        }
        ok, entries, index := ParseMemberValue(entries, key, index);
        if !ok {
          return false, Null;
        }
        seen := seen + {key};
        ok, more := ParseSeparatorToken(RBRACE);
        if !ok {
          return false, Null;
        }
        if more.Done? {
          return true, Obj(entries);
        }
      }
    }

    /** The value of a member, parsed into its place: an existing key keeps its entry, a new one is appended. */
    method ParseMemberValue(before: seq<Member>, key: bytes, index: KeyIndex?)
        returns (ok: bool, entries: seq<Member>, index': KeyIndex?)
      requires Good() && DistinctKeys(before) && Indexed(index, before) && (cfg.strictKeys ==> key !in Keys(before))
      modifies this, mem, index
      ensures depth == old(depth) && (ok ==> Good() && curr > old(curr))
      ensures ok ==> DistinctKeys(entries) && Keys(entries) == Keys(before) + {key}
      ensures ok ==> (index' == index || fresh(index')) && Indexed(index', entries)
      ensures Agrees(Expect(old(error), MemberValue(cfg, Buf(), old(curr), old(depth), before, key)), ok, entries,
        error, curr)
      decreases size - curr, 4
    {
      hide ParseValue, Indexes;
      var pos, v;
      pos, index' := FindPosition(before, key, index);
      entries := before;
      ok, v := ParseValueInPlace(false);
      if !ok {
        return;
      }
      UpsertKeepsDistinct(before, key, v);
      KeysFollow(before, key, v);
      entries := if pos < |before| then before[pos := Member(before[pos].key, v)] else before + [Member(key, v)];
    }

    /**
     Where the value of this key goes: strict mode appends (a repeated key was refused); a small object is swept;
     a large one is indexed, and the index stores the position of the entry about to be appended.
     */
    method FindPosition(entries: seq<Member>, key: bytes, index: KeyIndex?) returns (pos: nat, index': KeyIndex?)
      requires DistinctKeys(entries) && Indexed(index, entries) && (cfg.strictKeys ==> key !in Keys(entries))
      modifies index
      ensures pos == FirstMatch(entries, key)
      ensures index' == index || fresh(index')
      ensures index' != null ==> !cfg.strictKeys && KEY_INDEX_THRESHOLD <= |entries|
      ensures index' != null ==> index'.Valid(if pos == |entries| then KeySeq(entries) + [key] else KeySeq(entries))
    {
      index' := index;
      if cfg.strictKeys {
        FirstMatchUnique(entries, key, |entries|);
        return |entries|, index;
      }
      if |entries| < KEY_INDEX_THRESHOLD {
        pos := Sweep(entries, key);
        return;
      }
      if index' == null {
        index' := new KeyIndex(hash);
        index'.Build(entries);
      }
      pos := index'.FindOrInsert(entries, key);
    }

    /** Small-object scan: the first equal entry wins. */
    method Sweep(entries: seq<Member>, key: bytes) returns (pos: nat)
      ensures pos == FirstMatch(entries, key)
    {
      pos := 0;
      while pos < |entries| && entries[pos].key != key
        invariant pos <= |entries| && forall i :: 0 <= i < pos ==> entries[i].key != key
      {
        pos := pos + 1;
      }
      FirstMatchUnique(entries, key, pos);
    }

    /** Parser::parse. */
    method Parse() returns (ok: bool, out: Json)
      requires Good() && curr == 0 && depth == 0 && error.None?
      modifies this, mem
      ensures match ParseDocument(cfg, Buf())
        case Ok(v, _) => ok && error.None? && out == v
        case Fail(e) => !ok && error == Some(e)
      ensures depth == 0 && (ok ==> Good())
    {
      hide ParseValue, Skip;
      if cfg.stripBom && end >= 3 && mem[base] == 0xEF && mem[base + 1] == 0xBB && mem[base + 2] == 0xBF {
        curr := 3;
      }
      assert curr == SkipBom(cfg, Buf()) by {
        assert BOM[0] == 0xEF && BOM[1] == 0xBB && BOM[2] == 0xBF;
      }
      ok, out := ParseValueInPlace(true);
      if !ok || error.Some? {
        return false, out;
      }
      SkipWhitespace();
      if error.Some? {
        return false, out;
      }
      if curr < end {
        Record(Positioned(ExtraCharactersAfterValue, curr));
        return false, out;
      }
    }
  }

  lemma KeysFollow(entries: seq<Member>, key: bytes, v: Json)
    ensures KeySeq(Upsert(entries, key, v)) ==
      if FirstMatch(entries, key) < |entries| then KeySeq(entries) else KeySeq(entries) + [key]
  {
  }
}
