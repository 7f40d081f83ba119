/**
 JSON5 mode extends RFC mode: every text RFC mode accepts, JSON5 mode accepts with the same value, although strings,
 numbers, trivia and separators go through code of their own.
 */
module Json5Extension {
  import opened Core
  import opened Grammar
  import opened Utf8
  import opened Strings
  import opened Json5Lexer
  import opened ParserSpec

  function Five(cfg: Config): Config { cfg.(json5 := true) }

  /** A byte that opens no JSON5 trivia. */
  predicate Calm(c: byte) { c < 0x80 && c != SLASH && c != 0x0B && c != 0x0C }

  /** What follows a value in an accepted text. */
  predicate Followed(s: bytes, n: nat) {
    n <= |s| && (n == |s| || IsWs(s[n]) || s[n] == COMMA || s[n] == RBRACKET || s[n] == RBRACE)
  }

  lemma SkipExtends(cfg: Config, s: bytes, p: nat)
    requires p <= |s| && Calm(At(s, SkipWs(s, p)))
    ensures Skip(Five(cfg), Whole(s), p) == Ok((), SkipWs(s, p))
  {
    TriviaExtendsWs(s, p);
  }

  lemma SkipTwice(s: bytes, p: nat)
    requires p <= |s|
    ensures SkipWs(s, SkipWs(s, p)) == SkipWs(s, p)
  {
  }

  // ---- tokens ----

  lemma StringExtends(cfg: Config, s: bytes, q: nat)
    requires !cfg.json5 && q < |s| && s[q] == QUOTE && StringToken(cfg, Whole(s), q).Ok?
    ensures StringToken(Five(cfg), Whole(s), q) == StringToken(cfg, Whole(s), q)
  {
    hide ParseString, Decode, Decode5;
    FastPathAgrees(cfg.strictUtf8, Whole(s), q);
    Decode5Extends(cfg.strictUtf8, s, q + 1, |s|, Fresh, []);
  }

  lemma NumberExtends(cfg: Config, s: bytes, q: nat)
    requires !cfg.json5 && q <= |s| && NumberToken(cfg, Whole(s), q).Ok? &&
      Followed(s, NumberToken(cfg, Whole(s), q).next)
    ensures NumberToken(Five(cfg), Whole(s), q) == NumberToken(cfg, Whole(s), q)
  {
    hide ParseNumber, ParseNumber5;
    Number5Extends(cfg.lib, s, q, |s|);
  }

  lemma LiteralExtends(cfg: Config, s: bytes, q: nat)
    requires !cfg.json5 && ParseLiteral(cfg, Whole(s), q).Ok?
    ensures ParseLiteral(Five(cfg), Whole(s), q) == ParseLiteral(cfg, Whole(s), q)
  {
    hide LiteralAt, ValidAfterLiteral;
  }

  lemma ScalarExtends(cfg: Config, s: bytes, q: nat, top: bool)
    requires !cfg.json5 && q <= |s| && ParseScalar(cfg, Whole(s), q, top).Ok?
    requires Followed(s, ParseScalar(cfg, Whole(s), q, top).next)
    ensures ParseScalar(Five(cfg), Whole(s), q, top) == ParseScalar(cfg, Whole(s), q, top) && Calm(At(s, q))
  {
    hide StringToken, ParseLiteral, NumberToken, ParseString5;
    var c := At(s, q);
    if c == QUOTE {
      StringExtends(cfg, s, q);
    } else if StartsLiteral(c) {
      LiteralExtends(cfg, s, q);
    } else if StartsNumber(c) {
      NumberExtends(cfg, s, q);
    }
  }

  // ---- values ----

  predicate SameStart(s: bytes, p: nat, x: nat) { p <= |s| && x <= |s| && SkipWs(s, p) == SkipWs(s, x) }

  lemma {:induction false} ValueExtends(cfg: Config, s: bytes, p: nat, x: nat, depth: nat, top: bool)
    requires !cfg.json5 && SameStart(s, p, x) && ParseValue(cfg, Whole(s), p, depth, top).Ok?
    requires Followed(s, ParseValue(cfg, Whole(s), p, depth, top).next)
    ensures ParseValue(Five(cfg), Whole(s), x, depth, top) == ParseValue(cfg, Whole(s), p, depth, top)
    ensures Calm(At(s, SkipWs(s, p)))
    decreases |s| - SkipWs(s, p), 3
  {
    var q := SkipWs(s, p);
    if At(s, q) == LBRACE || At(s, q) == LBRACKET {
      SkipExtends(cfg, s, x);
      ContainerExtends(cfg, s, p, q, x, depth, top);
    } else {
      ScalarAt(cfg, Whole(s), p, q, depth, top);
      hide ParseScalar, ParseValue, SkipWs, Skip;
      ScalarExtends(cfg, s, q, top);
      SkipExtends(cfg, s, x);
      ScalarAt(Five(cfg), Whole(s), x, q, depth, top);
    }
  }

  lemma OpensBoth(cfg: Config, s: bytes, p: nat, q: nat, x: nat, depth: nat, top: bool)
    requires !cfg.json5 && p <= |s| && x <= |s| && SkipWs(s, p) == q < |s| && (s[q] == LBRACE || s[q] == LBRACKET)
    requires Skip(Five(cfg), Whole(s), x) == Ok((), q) && ParseValue(cfg, Whole(s), p, depth, top).Ok?
    ensures s[q] == LBRACKET ==> ParseValue(cfg, Whole(s), p, depth, top) == ParseArray(cfg, Whole(s), q + 1, depth + 1)
    ensures s[q] == LBRACKET ==>
      ParseValue(Five(cfg), Whole(s), x, depth, top) == ParseArray(Five(cfg), Whole(s), q + 1, depth + 1)
    ensures s[q] == LBRACE ==> ParseValue(cfg, Whole(s), p, depth, top) == ParseObject(cfg, Whole(s), q + 1, depth + 1)
    ensures s[q] == LBRACE ==>
      ParseValue(Five(cfg), Whole(s), x, depth, top) == ParseObject(Five(cfg), Whole(s), q + 1, depth + 1)
  {
    hide ParseValue, ParseArray, ParseObject, SkipWs;
    assert TooDeep(Five(cfg), depth) == TooDeep(cfg, depth);
    if s[q] == LBRACKET {
      ArrayOpens(cfg, Whole(s), p, q, depth, top);
      ArrayOpens(Five(cfg), Whole(s), x, q, depth, top);
    } else {
      ObjectOpens(cfg, Whole(s), p, q, depth, top);
      ObjectOpens(Five(cfg), Whole(s), x, q, depth, top);
    }
  }

  lemma {:induction false} ContainerExtends(cfg: Config, s: bytes, p: nat, q: nat, x: nat, depth: nat, top: bool)
    requires !cfg.json5 && p <= |s| && x <= |s| && SkipWs(s, p) == q < |s| && (s[q] == LBRACE || s[q] == LBRACKET)
    requires Skip(Five(cfg), Whole(s), x) == Ok((), q) && ParseValue(cfg, Whole(s), p, depth, top).Ok?
    ensures ParseValue(Five(cfg), Whole(s), x, depth, top) == ParseValue(cfg, Whole(s), p, depth, top)
    decreases |s| - q, 2
  {
    hide ParseValue, ParseArray, ParseObject, SkipWs;
    OpensBoth(cfg, s, p, q, x, depth, top);
    if s[q] == LBRACKET {
      ArrayExtends(cfg, s, q + 1, depth + 1);
    } else {
      ObjectExtends(cfg, s, q + 1, depth + 1);
    }
  }

  lemma {:induction false} ArrayExtends(cfg: Config, s: bytes, p: nat, depth: nat)
    requires !cfg.json5 && p <= |s| && ParseArray(cfg, Whole(s), p, depth).Ok?
    ensures ParseArray(Five(cfg), Whole(s), p, depth) == ParseArray(cfg, Whole(s), p, depth)
    decreases |s| - p, 7
  {
    hide ParseElements;
    var q := SkipWs(s, p);
    SkipTwice(s, p);
    if !Closes(Whole(s), q, RBRACKET) { ElementsExtend(cfg, s, q, q, depth, []); }
    SkipExtends(cfg, s, p);
  }

  /** The separator step: behind a comma, JSON5 has skipped to the next value already. */
  lemma SeparatorExtends(cfg: Config, s: bytes, n: nat, close: byte)
    requires !cfg.json5 && n <= |s| && (close == RBRACKET || close == RBRACE) &&
      ParseSeparator(cfg, Whole(s), n, close).Ok?
    requires var sep := ParseSeparator(cfg, Whole(s), n, close);
      sep.value.Another? ==> var t := SkipWs(s, sep.next); Calm(At(s, t)) && At(s, t) != close
    ensures Followed(s, n)
    ensures var sep, five := ParseSeparator(cfg, Whole(s), n, close), ParseSeparator(Five(cfg), Whole(s), n, close);
      five == if sep.value.Done? then sep else Ok(Another, SkipWs(s, sep.next))
  {
    var q := SkipWs(s, n);
    assert q == n || IsWs(s[n]);
    SkipExtends(cfg, s, n);
    if At(s, q) == COMMA { SkipExtends(cfg, s, q + 1); }
    hide Skip, SkipWs;
  }

  lemma {:induction false} ElementsExtend(cfg: Config, s: bytes, p: nat, x: nat, depth: nat, acc: seq<Json>)
    requires !cfg.json5 && SameStart(s, p, x) && ParseElements(cfg, Whole(s), p, depth, acc).Ok?
    ensures ParseElements(Five(cfg), Whole(s), x, depth, acc) == ParseElements(cfg, Whole(s), p, depth, acc)
    ensures Calm(At(s, SkipWs(s, p))) && At(s, SkipWs(s, p)) != RBRACKET
    decreases |s| - SkipWs(s, p), 4
  {
    hide ParseElements, ParseValue, ParseSeparator, Skip, Followed;
    ElementsStep(cfg, Whole(s), p, depth, acc);
    ElementsStep(Five(cfg), Whole(s), x, depth, acc);
    var v := ParseValue(cfg, Whole(s), p, depth, false);
    NoCloseStarts(cfg, s, p, depth);
    ValueBehind(cfg, s, p, depth);
    var sep := ParseSeparator(cfg, Whole(s), v.next, RBRACKET);
    SeparatorFollows(cfg, s, v.next, RBRACKET);
    ValueExtends(cfg, s, p, x, depth, false);
    if sep.value.Another? {
      SkipTwice(s, sep.next);
      SkipsOn(s, v.next, sep.next);
      ElementsExtend(cfg, s, sep.next, SkipWs(s, sep.next), depth, acc + [v.value]);
    }
    SeparatorExtends(cfg, s, v.next, RBRACKET);
  }

  lemma SkipsOn(s: bytes, n: nat, m: nat)
    requires n < m <= |s|
    ensures SkipWs(s, m) >= m
  {
  }

  /** An accepted value ends behind its first byte. */
  lemma ValueBehind(cfg: Config, s: bytes, p: nat, depth: nat)
    requires !cfg.json5 && p <= |s| && ParseValue(cfg, Whole(s), p, depth, false).Ok?
    ensures SkipWs(s, p) < ParseValue(cfg, Whole(s), p, depth, false).next
  {
    hide ParseArray, ParseObject, ParseScalar;
    var q := SkipWs(s, p);
  }

  /** No value starts with a closing bracket. */
  lemma NoCloseStarts(cfg: Config, s: bytes, p: nat, depth: nat)
    requires !cfg.json5 && p <= |s| && ParseValue(cfg, Whole(s), p, depth, false).Ok?
    ensures At(s, SkipWs(s, p)) != RBRACKET && At(s, SkipWs(s, p)) != RBRACE
  {
    hide ParseArray, ParseObject, StringToken, NumberToken, ParseLiteral;
  }

  lemma SeparatorFollows(cfg: Config, s: bytes, n: nat, close: byte)
    requires !cfg.json5 && n <= |s| && (close == RBRACKET || close == RBRACE) &&
      ParseSeparator(cfg, Whole(s), n, close).Ok?
    ensures Followed(s, n)
  {
  }

  // ---- objects ----

  lemma {:induction false} ObjectExtends(cfg: Config, s: bytes, p: nat, depth: nat)
    requires !cfg.json5 && p <= |s| && ParseObject(cfg, Whole(s), p, depth).Ok?
    ensures ParseObject(Five(cfg), Whole(s), p, depth) == ParseObject(cfg, Whole(s), p, depth)
    decreases |s| - p, 7
  {
    hide ParseMembers;
    var q := SkipWs(s, p);
    SkipTwice(s, p);
    if At(s, q) != RBRACE { MembersExtend(cfg, s, q, q, depth, []); }
    SkipExtends(cfg, s, p);
  }

  lemma KeyExtends(cfg: Config, s: bytes, p: nat, x: nat, acc: seq<Member>)
    requires !cfg.json5 && SameStart(s, p, x) && ParseKeyColon(cfg, Whole(s), p, acc).Ok?
    ensures ParseKeyColon(Five(cfg), Whole(s), x, acc) == ParseKeyColon(cfg, Whole(s), p, acc)
    ensures At(s, SkipWs(s, p)) == QUOTE && SkipWs(s, p) < ParseKeyColon(cfg, Whole(s), p, acc).next
  {
    hide StringToken, SkipWs, Trivia, ParseString5, ParseIdentKey;
    var k := SkipWs(s, p);
    StringExtends(cfg, s, k);
    var key := StringToken(cfg, Whole(s), k);
    SkipExtends(cfg, s, x);
    SkipExtends(cfg, s, key.next);
  }

  lemma {:induction false} MembersExtend(cfg: Config, s: bytes, p: nat, x: nat, depth: nat, acc: seq<Member>)
    requires !cfg.json5 && SameStart(s, p, x) && ParseMembers(cfg, Whole(s), p, depth, acc).Ok?
    ensures ParseMembers(Five(cfg), Whole(s), x, depth, acc) == ParseMembers(cfg, Whole(s), p, depth, acc)
    ensures At(s, SkipWs(s, p)) == QUOTE
    decreases |s| - SkipWs(s, p), 6
  {
    hide ParseMembers, ParseValue, ParseSeparator, ParseKeyColon, Skip, Followed, Upsert;
    MembersStep(cfg, Whole(s), p, depth, acc);
    MembersStep(Five(cfg), Whole(s), x, depth, acc);
    var k := ParseKeyColon(cfg, Whole(s), p, acc);
    KeyExtends(cfg, s, p, x, acc);
    MemberExtends(cfg, s, k.next, depth, acc, k.value);
  }

  /** A member's value, and everything behind it. */
  function AfterKey(cfg: Config, s: bytes, c: nat, depth: nat, acc: seq<Member>, key: bytes): Parsed<Json>
    requires c <= |s|
  {
    var v := ParseValue(cfg, Whole(s), c, depth, false);
    if v.Fail? then Fail(v.error)
    else
      var sep := ParseSeparator(cfg, Whole(s), v.next, RBRACE);
      if sep.Fail? then Fail(sep.error)
      else if sep.value.Done? then Ok(Obj(Upsert(acc, key, v.value)), sep.next)
      else ParseMembers(cfg, Whole(s), sep.next, depth, Upsert(acc, key, v.value))
  }

  lemma {:induction false} MemberExtends(cfg: Config, s: bytes, c: nat, depth: nat, acc: seq<Member>, key: bytes)
    requires !cfg.json5 && c <= |s| && AfterKey(cfg, s, c, depth, acc, key).Ok?
    ensures AfterKey(Five(cfg), s, c, depth, acc, key) == AfterKey(cfg, s, c, depth, acc, key)
    decreases |s| - c, 5
  {
    hide ParseMembers, ParseValue, ParseSeparator, Skip, Followed, Upsert;
    var v := ParseValue(cfg, Whole(s), c, depth, false);
    ValueBehind(cfg, s, c, depth);
    SeparatorFollows(cfg, s, v.next, RBRACE);
    var sep := ParseSeparator(cfg, Whole(s), v.next, RBRACE);
    ValueExtends(cfg, s, c, c, depth, false);
    if sep.value.Another? {
      SkipTwice(s, sep.next);
      SkipsOn(s, v.next, sep.next);
      MembersExtend(cfg, s, sep.next, SkipWs(s, sep.next), depth, Upsert(acc, key, v.value));
    }
    SeparatorExtends(cfg, s, v.next, RBRACE);
  }

  // ---- whole texts ----

  /** Whatever RFC mode accepts with value v, JSON5 mode accepts with the same v. */
  lemma Json5ExtendsRfc(cfg: Config, s: bytes)
    requires !cfg.json5 && ParseDocument(cfg, Whole(s)).Ok?
    ensures ParseDocument(Five(cfg), Whole(s)) == ParseDocument(cfg, Whole(s))
  {
    hide ParseValue, Skip, SkipWs;
    var p := SkipBom(cfg, Whole(s));
    var v := ParseValue(cfg, Whole(s), p, 0, true);
    var q := SkipWs(s, v.next);
    assert q == v.next || IsWs(s[v.next]);
    assert q == |s| by { EndReached(cfg, s, v.next); }
    ValueExtends(cfg, s, p, p, 0, true);
    SkipExtends(cfg, s, v.next);
    SkipIsWs(cfg, s, v.next);
  }

  lemma SkipIsWs(cfg: Config, s: bytes, n: nat)
    requires !cfg.json5 && n <= |s|
    ensures Skip(cfg, Whole(s), n) == Ok((), SkipWs(s, n))
  {
  }

  lemma EndReached(cfg: Config, s: bytes, n: nat)
    requires !cfg.json5 && n <= |s| && Skip(cfg, Whole(s), n).next >= |s|
    ensures SkipWs(s, n) == |s|
  {
  }
}
