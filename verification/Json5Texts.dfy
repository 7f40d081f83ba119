/** JSON5 mode decides Json5Grammar: the parser accepts exactly its texts, for what they stand for. */
module Json5Texts {
  import opened Core
  import opened Grammar
  import opened Strings
  import opened Json5Lexer
  import opened ParserSpec
  import opened Lexis
  import opened StringMeaning
  import opened Json5Grammar
  import opened Json5Numbers
  import opened Json5Reading
  import opened Json5Extension

  import TextGrammar
  import Utf8Gate

  /** JSON5 mode without the UTF-8 check, in any other settings. */
  predicate Json5Mode(cfg: Config) { cfg.json5 && !cfg.strictUtf8 }

  /** What may stand behind a value. */
  ghost predicate Stops5(s: bytes, b: nat) {
    b <= |s| && (b == |s| || s[b] == ',' as int || s[b] == ']' as int || s[b] == '}' as int || OpensBlank(s, b))
  }

  lemma StopsNumber(s: bytes, b: nat)
    requires Stops5(s, b)
    ensures NumberStops(s, b)
  {
    if b < |s| && OpensBlank(s, b) && s[b] != SLASH {
      var n: nat :| White(s, b, n);
    }
  }

  /** Neither white space nor a comment begins with a printable byte but the slash. */
  lemma Printable(s: bytes, p: nat)
    requires p < |s| && 0x21 <= s[p] < 0x80 && s[p] != SLASH
    ensures !OpensBlank(s, p)
  {
  }

  // ---- scalars ----

  lemma LiteralsAre(s: bytes, p: nat, q: nat)
    ensures Word(s, p, q, "true") <==> LiteralAt(s, p, |s|, TRUE) && q == p + 4
    ensures Word(s, p, q, "false") <==> LiteralAt(s, p, |s|, FALSE) && q == p + 5
    ensures Word(s, p, q, "null") <==> LiteralAt(s, p, |s|, NULL) && q == p + 4
    ensures Word(s, p, q, "true") ==> p < |s| && s[p] == 0x74
    ensures Word(s, p, q, "false") ==> p < |s| && s[p] == 0x66
    ensures Word(s, p, q, "null") ==> p < |s| && s[p] == 0x6E
  {
    hide LiteralAt;
    TextGrammar.WordIs(s, p, q, "true", TRUE);
    TextGrammar.WordIs(s, p, q, "false", FALSE);
    TextGrammar.WordIs(s, p, q, "null", NULL);
    if Word(s, p, q, "true") { assert s[p + 0] == "true"[0] as int; }
    if Word(s, p, q, "false") { assert s[p + 0] == "false"[0] as int; }
    if Word(s, p, q, "null") { assert s[p + 0] == "null"[0] as int; }
  }

  lemma LiteralMeans(cfg: Config, s: bytes, p: nat, q: nat, v: Json)
    requires cfg.json5 && p < |s|
    ensures ParseLiteral(cfg, Whole(s), p) == Ok(v, q) <==> Literal5(s, p, q, v)
    ensures Literal5(s, p, q, v) ==> StartsLiteral(s[p])
  {
    hide LiteralAt, Word;
    LiteralsAre(s, p, q);
    LiteralByFirst(s, p);
  }

  lemma StringStarts(s: bytes, p: nat, q: nat, quote: byte, t: bytes)
    requires String5Is(s, p, q, quote, t)
    ensures p < |s| && s[p] == quote && p < q <= |s|
  {
    hide Chars5;
  }

  /** Strict mode reads no string differently. */
  lemma StrictReads(s: bytes, p: nat, quote: byte)
    requires p < |s| && quote >= 0x20
    ensures ParseString5(true, Whole(s), p, quote).Ok? ==>
      ParseString5(true, Whole(s), p, quote) == ParseString5(false, Whole(s), p, quote)
  {
    hide ParseString5;
    Utf8Gate.StrictValue5(Whole(s), p, quote);
  }

  lemma ScalarSound(cfg: Config, s: bytes, p: nat, top: bool)
    requires cfg.json5 && p <= |s| && ParseScalar(cfg, Whole(s), p, top).Ok?
    ensures var r := ParseScalar(cfg, Whole(s), p, top); p < r.next <= |s| && Scalar5(cfg, s, p, r.next, r.value)
  {
    hide ParseLiteral, ParseNumber5, ParseString5, Number5, Literal5, String5Is, ParseNumber, ParseString;
    var r := ParseScalar(cfg, Whole(s), p, top);
    if p < |s| {
      var c := s[p];
      if c == QUOTE || c == APOSTROPHE {
        StrictReads(s, p, c);
        String5Means(s, p, r.next, c, r.value.s);
      } else if StartsLiteral(c) {
        LiteralMeans(cfg, s, p, r.next, r.value);
      } else {
        NumberSound(cfg.lib, s, p);
      }
    }
  }

  lemma ScalarRead(cfg: Config, s: bytes, p: nat, q: nat, v: Json, top: bool)
    requires Json5Mode(cfg) && Scalar5(cfg, s, p, q, v) && Stops5(s, q)
    ensures p < q <= |s| && 0x21 <= s[p] < 0x80 && s[p] != SLASH
    ensures s[p] != LBRACE && s[p] != LBRACKET && s[p] != RBRACKET && s[p] != RBRACE
    ensures ParseScalar(cfg, Whole(s), p, top) == Ok(v, q)
  {
    hide ParseLiteral, ParseNumber5, ParseString5, Number5, Literal5, String5Is, Stops5, ParseNumber, ParseString;
    if Number5(cfg.lib, s, p, q, v) {
      StopsNumber(s, q);
      NumberStarts(cfg.lib, s, p, q, v);
      NumberRead(cfg.lib, s, p, q, v);
    } else if StringValue5(s, p, q, v) {
      var quote: byte := if String5Is(s, p, q, '"' as int, v.s) then QUOTE else APOSTROPHE;
      StringStarts(s, p, q, quote, v.s);
      String5Means(s, p, q, quote, v.s);
    } else {
      LiteralBounds(s, p, q, v);
      LiteralMeans(cfg, s, p, q, v);
    }
  }

  lemma LiteralBounds(s: bytes, p: nat, q: nat, v: Json)
    requires Literal5(s, p, q, v)
    ensures p < q <= |s|
  {
  }

  // ---- keys ----

  lemma KeyMeans(cfg: Config, s: bytes, p: nat, q: nat, t: bytes)
    requires Json5Mode(cfg) && p < |s| && s[p] != RBRACE && !OpensBlank(s, p)
    ensures ParseKey(cfg, Whole(s), p) == Ok(t, q) <==> Key5(cfg, s, p, q, t)
  {
    hide ParseIdentKey, ParseString5, String5Is, Name, OpensBlank, ParseString;
    var c := s[p];
    if c == QUOTE || c == APOSTROPHE {
      String5Means(s, p, q, c, t);
      if String5Is(s, p, q, '"' as int, t) { StringStarts(s, p, q, '"' as int, t); }
      if String5Is(s, p, q, '\'' as int, t) { StringStarts(s, p, q, '\'' as int, t); }
    } else {
      NameMeans(cfg, s, p, q, t);
      if String5Is(s, p, q, '"' as int, t) { StringStarts(s, p, q, '"' as int, t); }
      if String5Is(s, p, q, '\'' as int, t) { StringStarts(s, p, q, '\'' as int, t); }
    }
  }

  lemma KeySound(cfg: Config, s: bytes, p: nat)
    requires cfg.json5 && p < |s| && s[p] != RBRACE && !OpensBlank(s, p) && ParseKey(cfg, Whole(s), p).Ok?
    ensures var r := ParseKey(cfg, Whole(s), p); Key5(cfg, s, p, r.next, r.value)
  {
    hide ParseIdentKey, ParseString5, String5Is, Name, OpensBlank, ParseString;
    var c, r := s[p], ParseKey(cfg, Whole(s), p);
    if c == QUOTE || c == APOSTROPHE {
      StrictReads(s, p, c);
      String5Means(s, p, r.next, c, r.value);
    } else {
      NameMeans(cfg, s, p, r.next, r.value);
    }
  }

  lemma KeyStarts(cfg: Config, s: bytes, p: nat, q: nat, t: bytes)
    requires Key5(cfg, s, p, q, t)
    ensures p < |s| && s[p] != RBRACE && !OpensBlank(s, p)
  {
    hide String5Is, Name, OpensBlank;
    if String5Is(s, p, q, '"' as int, t) {
      StringStarts(s, p, q, '"' as int, t);
      Printable(s, p);
    } else if String5Is(s, p, q, '\'' as int, t) {
      StringStarts(s, p, q, '\'' as int, t);
      Printable(s, p);
    }
  }

  // ---- spans ----

  lemma {:induction false} BlankJoins(s: bytes, p: nat, x: nat, q: nat)
    requires p <= x <= q && Blank5(s, p, x) && Blank5(s, x, q)
    ensures Blank5(s, p, q)
    decreases x - p
  {
    hide Piece;
    if p < x {
      var n: nat :| p < n <= x && Piece(s, p, n) && Blank5(s, n, x);
      BlankJoins(s, n, x, q);
    }
  }

  lemma ElementOf(cfg: Config, depth: nat, s: bytes, p: nat, a: nat, b: nat, q: nat, v: Json)
    requires p <= a <= b <= q <= |s| && Blank5(s, p, a) && Value5(cfg, depth, s, a, b, v) && Blank5(s, b, q)
    ensures Element5(cfg, depth, s, p, q, v)
  {
    hide Value5, Blank5;
  }

  lemma ElementWidens(cfg: Config, depth: nat, s: bytes, p: nat, x: nat, q: nat, v: Json)
    requires p <= x <= q <= |s| && Blank5(s, p, x) && Element5(cfg, depth, s, x, q, v)
    ensures Element5(cfg, depth, s, p, q, v)
  {
    hide Value5, Blank5;
    var a: nat, b: nat :| x <= a <= b <= q && Blank5(s, x, a) && Blank5(s, b, q) && Value5(cfg, depth, s, a, b, v);
    BlankJoins(s, p, x, a);
    ElementOf(cfg, depth, s, p, a, b, q, v);
  }

  lemma ElementsAre(cfg: Config, depth: nat, s: bytes, p: nat, q: nat, vs: seq<Json>)
    requires p <= q <= |s|
    ensures Elements5(cfg, depth, s, p, q, vs) <==>
      |vs| > 0 &&
      if |vs| == 1 then
        || Element5(cfg, depth, s, p, q, vs[0])
        || exists m: nat :: p <= m < q && s[m] == COMMA && Element5(cfg, depth, s, p, m, vs[0]) && Blank5(s, m + 1, q)
      else exists m: nat ::
        && p <= m < q && s[m] == COMMA
        && Element5(cfg, depth, s, p, m, vs[0]) && Elements5(cfg, depth, s, m + 1, q, vs[1..])
  {
    hide Element5, Blank5;
  }

  lemma ElementsWiden(cfg: Config, depth: nat, s: bytes, p: nat, x: nat, q: nat, vs: seq<Json>)
    requires p <= x <= q <= |s| && Blank5(s, p, x) && Elements5(cfg, depth, s, x, q, vs)
    ensures Elements5(cfg, depth, s, p, q, vs)
  {
    hide Elements5, Element5, Blank5;
    ElementsAre(cfg, depth, s, x, q, vs);
    ElementsAre(cfg, depth, s, p, q, vs);
    if |vs| == 1 && Element5(cfg, depth, s, x, q, vs[0]) {
      ElementWidens(cfg, depth, s, p, x, q, vs[0]);
    } else if |vs| == 1 {
      var m: nat :| x <= m < q && s[m] == COMMA && Element5(cfg, depth, s, x, m, vs[0]) && Blank5(s, m + 1, q);
      ElementWidens(cfg, depth, s, p, x, m, vs[0]);
    } else {
      var m: nat :| x <= m < q && s[m] == COMMA && Element5(cfg, depth, s, x, m, vs[0]) &&
        Elements5(cfg, depth, s, m + 1, q, vs[1..]);
      ElementWidens(cfg, depth, s, p, x, m, vs[0]);
    }
  }

  lemma MembersAre(cfg: Config, depth: nat, s: bytes, p: nat, q: nat, ms: seq<Member>)
    requires p <= q <= |s|
    ensures Members5(cfg, depth, s, p, q, ms) <==>
      |ms| > 0 &&
      if |ms| == 1 then
        || Member5(cfg, depth, s, p, q, ms[0])
        || exists m: nat :: p <= m < q && s[m] == COMMA && Member5(cfg, depth, s, p, m, ms[0]) && Blank5(s, m + 1, q)
      else exists m: nat ::
        p <= m < q && s[m] == COMMA && Member5(cfg, depth, s, p, m, ms[0]) && Members5(cfg, depth, s, m + 1, q, ms[1..])
  {
    hide Member5, Blank5;
  }

  lemma MemberWidens(cfg: Config, depth: nat, s: bytes, p: nat, x: nat, q: nat, m: Member)
    requires p <= x <= q <= |s| && Blank5(s, p, x) && Member5(cfg, depth, s, x, q, m)
    ensures Member5(cfg, depth, s, p, q, m)
  {
    hide Element5, Blank5, Key5;
    var a: nat, b: nat, c: nat :| Named5(cfg, depth, s, x, a, b, c, q, m);
    BlankJoins(s, p, x, a);
    assert Named5(cfg, depth, s, p, a, b, c, q, m);
  }

  lemma MembersWiden(cfg: Config, depth: nat, s: bytes, p: nat, x: nat, q: nat, ms: seq<Member>)
    requires p <= x <= q <= |s| && Blank5(s, p, x) && Members5(cfg, depth, s, x, q, ms)
    ensures Members5(cfg, depth, s, p, q, ms)
  {
    hide Members5, Member5, Blank5;
    MembersAre(cfg, depth, s, x, q, ms);
    MembersAre(cfg, depth, s, p, q, ms);
    if |ms| == 1 && Member5(cfg, depth, s, x, q, ms[0]) {
      MemberWidens(cfg, depth, s, p, x, q, ms[0]);
    } else if |ms| == 1 {
      var m: nat :| x <= m < q && s[m] == COMMA && Member5(cfg, depth, s, x, m, ms[0]) && Blank5(s, m + 1, q);
      MemberWidens(cfg, depth, s, p, x, m, ms[0]);
    } else {
      var m: nat :| x <= m < q && s[m] == COMMA && Member5(cfg, depth, s, x, m, ms[0]) &&
        Members5(cfg, depth, s, m + 1, q, ms[1..]);
      MemberWidens(cfg, depth, s, p, x, m, ms[0]);
    }
  }

  // ---- the members of an object ----

  /** The pairs put into an object one after another. */
  function PutAll(ms: seq<Member>, pairs: seq<Member>): seq<Member>
    decreases |pairs|
  {
    if |pairs| == 0 then ms else PutAll(Upsert(ms, pairs[0].key, pairs[0].value), pairs[1..])
  }

  /** The pairs have names of their own, which no member has yet. */
  ghost predicate NewKeys(ms: seq<Member>, pairs: seq<Member>) {
    DistinctKeys(pairs) && forall i :: 0 <= i < |pairs| ==> pairs[i].key !in Keys(ms)
  }

  lemma NewKeysStep(ms: seq<Member>, m: Member, rest: seq<Member>)
    ensures NewKeys(ms, [m] + rest) <==> m.key !in Keys(ms) && NewKeys(Upsert(ms, m.key, m.value), rest)
  {
    hide Upsert;
    UpsertKeys(ms, m);
    var pairs := [m] + rest;
    if NewKeys(ms, pairs) {
      assert pairs[0] == m;
      forall i | 0 <= i < |rest| ensures rest[i].key !in Keys(ms) + {m.key} { assert pairs[i + 1] == rest[i]; }
      forall i, j | 0 <= i < j < |rest| ensures rest[i].key != rest[j].key {
        assert pairs[i + 1] == rest[i] && pairs[j + 1] == rest[j];
      }
    }
  }

  lemma OneIsNew(ms: seq<Member>, m: Member)
    ensures NewKeys(ms, [m]) <==> m.key !in Keys(ms)
  {
    assert [m][0] == m;
  }

  lemma NoneTaken(pairs: seq<Member>)
    ensures NewKeys([], pairs) <==> DistinctKeys(pairs)
  {
  }

  lemma UpsertKeys(ms: seq<Member>, m: Member)
    ensures Keys(Upsert(ms, m.key, m.value)) == Keys(ms) + {m.key}
  {
    var r, f := Upsert(ms, m.key, m.value), FirstMatch(ms, m.key);
    forall k ensures k in Keys(r) <==> k in Keys(ms) + {m.key} {
      if k in Keys(ms) {
        var i :| 0 <= i < |ms| && ms[i].key == k;
        assert r[i].key == k;
      }
      if k == m.key { assert r[f].key == k; }
      if k in Keys(r) {
        var i :| 0 <= i < |r| && r[i].key == k;
        if i < |ms| { assert ms[i].key == k; }
      }
    }
  }

  lemma {:induction false} PutAllSnoc(ms: seq<Member>, pairs: seq<Member>, m: Member)
    ensures PutAll(ms, pairs + [m]) == Upsert(PutAll(ms, pairs), m.key, m.value)
    decreases |pairs|
  {
    hide Upsert;
    if |pairs| == 0 {
      assert (pairs + [m])[1..] == [];
    } else {
      assert (pairs + [m])[1..] == pairs[1..] + [m];
      PutAllSnoc(Upsert(ms, pairs[0].key, pairs[0].value), pairs[1..], m);
    }
  }

  lemma {:induction false} PutAllGathers(pairs: seq<Member>)
    ensures PutAll([], pairs) == Gathered(pairs)
    decreases |pairs|
  {
    hide Upsert;
    if |pairs| > 0 {
      var n := |pairs| - 1;
      PutAllGathers(pairs[..n]);
      PutAllSnoc([], pairs[..n], pairs[n]);
      assert pairs[..n] + [pairs[n]] == pairs;
    }
  }

  // ---- what the parser accepts is in the grammar ----

  lemma SkipIs(cfg: Config, s: bytes, p: nat)
    requires cfg.json5 && p <= |s|
    ensures Skip(cfg, Whole(s), p) == Trivia(s, p, |s|)
  {
    hide Trivia;
  }

  /** The comma, if there is one, at r; behind it another item or, at n - 1, the closing byte. */
  lemma SeparatorSound(cfg: Config, s: bytes, b: nat, close: byte) returns (r: nat)
    requires cfg.json5 && b <= |s| && close != 0 && close != COMMA
    requires ParseSeparator(cfg, Whole(s), b, close).Ok?
    ensures var x := ParseSeparator(cfg, Whole(s), b, close); var n := x.next;
      && b <= r < |s| && Blank5(s, b, r) && !OpensBlank(s, r) && r < n <= |s|
      && (if x.value.Done? then
            s[n - 1] == close && (n == r + 1 || (s[r] == COMMA && Blank5(s, r + 1, n - 1)))
          else s[r] == COMMA && Blank5(s, r + 1, n) && !OpensBlank(s, n) && (n < |s| ==> s[n] != close))
  {
    hide Trivia, Blank5, OpensBlank;
    SkipIs(cfg, s, b);
    TriviaSound(s, b);
    r := Trivia(s, b, |s|).next;
    if r < |s| && s[r] == COMMA {
      SkipIs(cfg, s, r + 1);
      TriviaSound(s, r + 1);
    }
  }

  lemma FitsIs(cfg: Config, depth: nat)
    ensures TooDeep(cfg, depth) <==> !Fits(cfg, depth)
  {
  }

  lemma {:induction false} ValueSound(cfg: Config, s: bytes, p: nat, depth: nat, top: bool) returns (a: nat)
    requires cfg.json5 && p <= |s| && ParseValue(cfg, Whole(s), p, depth, top).Ok?
    ensures var r := ParseValue(cfg, Whole(s), p, depth, top);
      p <= a < r.next <= |s| && Blank5(s, p, a) && Value5(cfg, depth, s, a, r.next, r.value)
    decreases |s| - p, 3
  {
    hide Trivia, Skip, ParseValue, ParseArray, ParseObject, ParseScalar, Blank5, Elements5, Members5, OpensBlank,
      Scalar5, Gathered, PutAll;
    SkipIs(cfg, s, p);
    ValueSkips(cfg, s, p, depth, top);
    TriviaSound(s, p);
    a := Trivia(s, p, |s|).next;
    FitsIs(cfg, depth);
    var c := At(s, a);
    if c == LBRACKET {
      ArrayOpens(cfg, Whole(s), p, a, depth, top);
      ArraySound(cfg, s, a + 1, depth + 1);
    } else if c == LBRACE {
      ObjectOpens(cfg, Whole(s), p, a, depth, top);
      var pairs := ObjectSound(cfg, s, a + 1, depth + 1);
    } else {
      ScalarAt(cfg, Whole(s), p, a, depth, top);
      ScalarSound(cfg, s, a, top);
    }
  }

  lemma ValueSkips(cfg: Config, s: bytes, p: nat, depth: nat, top: bool)
    requires p <= |s|
    ensures Skip(cfg, Whole(s), p).Fail? ==> ParseValue(cfg, Whole(s), p, depth, top).Fail?
  {
    hide Skip, ParseArray, ParseObject, ParseScalar;
  }

  lemma {:induction false} ArraySound(cfg: Config, s: bytes, p: nat, depth: nat)
    requires cfg.json5 && p <= |s| && ParseArray(cfg, Whole(s), p, depth).Ok?
    ensures var r := ParseArray(cfg, Whole(s), p, depth);
      && p < r.next <= |s| && s[r.next - 1] == RBRACKET && r.value.Arr?
      && if |r.value.items| == 0 then Blank5(s, p, r.next - 1)
         else Elements5(cfg, depth, s, p, r.next - 1, r.value.items)
    decreases |s| - p, 5
  {
    hide Trivia, Skip, ParseElements, Blank5, Elements5, OpensBlank;
    SkipIs(cfg, s, p);
    TriviaSound(s, p);
    var q := Trivia(s, p, |s|).next;
    if !(q < |s| && s[q] == RBRACKET) {
      ElementsSound(cfg, s, q, depth, []);
      var r := ParseArray(cfg, Whole(s), p, depth);
      ElementsWiden(cfg, depth, s, p, q, r.next - 1, r.value.items);
      ElementsAre(cfg, depth, s, p, r.next - 1, r.value.items);
    }
  }

  lemma {:induction false} ElementsSound(cfg: Config, s: bytes, p: nat, depth: nat, acc: seq<Json>)
    requires cfg.json5 && p <= |s| && ParseElements(cfg, Whole(s), p, depth, acc).Ok?
    ensures var r := ParseElements(cfg, Whole(s), p, depth, acc);
      && p < r.next <= |s| && s[r.next - 1] == RBRACKET && r.value.Arr?
      && |acc| <= |r.value.items| && r.value.items[..|acc|] == acc
      && Elements5(cfg, depth, s, p, r.next - 1, r.value.items[|acc|..])
    decreases |s| - p, 4
  {
    hide Trivia, Skip, ParseElements, ParseValue, ParseSeparator, Blank5, Elements5, Element5, Value5, OpensBlank;
    var r := ParseElements(cfg, Whole(s), p, depth, acc);
    ElementsStep(cfg, Whole(s), p, depth, acc);
    var a := ValueSound(cfg, s, p, depth, false);
    var x := ParseValue(cfg, Whole(s), p, depth, false);
    var v, b := x.value, x.next;
    var y := SeparatorSound(cfg, s, b, RBRACKET);
    ElementOf(cfg, depth, s, p, a, b, y, v);
    var n := ParseSeparator(cfg, Whole(s), b, RBRACKET).next;
    if ParseSeparator(cfg, Whole(s), b, RBRACKET).value.Done? {
      assert (acc + [v])[|acc|..] == [v];
      ElementsAre(cfg, depth, s, p, n - 1, [v]);
    } else {
      ElementsSound(cfg, s, n, depth, acc + [v]);
      var vs := r.value.items[|acc|..];
      assert vs[1..] == r.value.items[|acc + [v]|..] && vs[0] == v by { assert r.value.items[..|acc| + 1][|acc|] == v; }
      ElementsWiden(cfg, depth, s, y + 1, n, r.next - 1, vs[1..]);
      assert r.value.items[..|acc|] == r.value.items[..|acc| + 1][..|acc|] == acc;
      ElementsAre(cfg, depth, s, y + 1, r.next - 1, vs[1..]);
      ElementsAre(cfg, depth, s, p, r.next - 1, vs);
    }
  }

  lemma {:induction false} ObjectSound(cfg: Config, s: bytes, p: nat, depth: nat) returns (pairs: seq<Member>)
    requires cfg.json5 && p <= |s| && ParseObject(cfg, Whole(s), p, depth).Ok?
    ensures var r := ParseObject(cfg, Whole(s), p, depth);
      && p < r.next <= |s| && s[r.next - 1] == RBRACE && r.value.Obj? && r.value.members == Gathered(pairs)
      && (cfg.strictKeys ==> DistinctKeys(pairs))
      && if |pairs| == 0 then Blank5(s, p, r.next - 1) else Members5(cfg, depth, s, p, r.next - 1, pairs)
    decreases |s| - p, 6
  {
    hide Trivia, Skip, ParseMembers, Blank5, Members5, OpensBlank, PutAll, Upsert, NewKeys;
    SkipIs(cfg, s, p);
    TriviaSound(s, p);
    var q := Trivia(s, p, |s|).next;
    if q < |s| && s[q] == RBRACE {
      pairs := [];
    } else {
      pairs := MembersSound(cfg, s, q, depth, []);
      NoneTaken(pairs);
      PutAllGathers(pairs);
      var n := ParseObject(cfg, Whole(s), p, depth).next;
      MembersWiden(cfg, depth, s, p, q, n - 1, pairs);
      MembersAre(cfg, depth, s, p, n - 1, pairs);
    }
  }

  /** A key, blanks and the colon in front of position d. */
  lemma KeyColonSound(cfg: Config, s: bytes, p: nat, ms: seq<Member>) returns (b: nat)
    requires cfg.json5 && p <= |s| && !OpensBlank(s, p) && (p < |s| ==> s[p] != RBRACE)
    requires ParseKeyColon(cfg, Whole(s), p, ms).Ok?
    ensures var r := ParseKeyColon(cfg, Whole(s), p, ms); var c := r.next - 1;
      && p < b <= c < |s| && Key5(cfg, s, p, b, r.value) && Blank5(s, b, c) && s[c] == COLON
      && (cfg.strictKeys ==> r.value !in Keys(ms))
  {
    hide Trivia, Skip, ParseKey, Blank5, OpensBlank, Key5, Keys;
    SkipIs(cfg, s, p);
    StopsTrivia(s, p);
    var k := ParseKey(cfg, Whole(s), p);
    b := k.next;
    NoKeyAtEnd(cfg, s);
    KeySound(cfg, s, p);
    SkipIs(cfg, s, b);
    TriviaSound(s, b);
  }

  lemma NoKeyAtEnd(cfg: Config, s: bytes)
    ensures ParseKey(cfg, Whole(s), |s|).Fail?
  {
  }

  lemma {:induction false} MembersSound(cfg: Config, s: bytes, p: nat, depth: nat, ms: seq<Member>)
      returns (pairs: seq<Member>)
    requires cfg.json5 && p <= |s| && !OpensBlank(s, p) && (p < |s| ==> s[p] != RBRACE)
    requires ParseMembers(cfg, Whole(s), p, depth, ms).Ok?
    ensures var r := ParseMembers(cfg, Whole(s), p, depth, ms);
      && p < r.next <= |s| && s[r.next - 1] == RBRACE && r.value == Obj(PutAll(ms, pairs))
      && (cfg.strictKeys ==> NewKeys(ms, pairs))
      && Members5(cfg, depth, s, p, r.next - 1, pairs)
    decreases |s| - p, 4
  {
    hide Trivia, Skip, ParseMembers, ParseValue, ParseKeyColon, ParseSeparator, Blank5, Members5, Member5, Value5,
      OpensBlank, Key5, Upsert, PutAll, NewKeys, Keys;
    var r := ParseMembers(cfg, Whole(s), p, depth, ms);
    MembersStep(cfg, Whole(s), p, depth, ms);
    var e := KeyColonSound(cfg, s, p, ms);
    var k := ParseKeyColon(cfg, Whole(s), p, ms);
    var d := k.next;
    var a := ValueSound(cfg, s, d, depth, false);
    var x := ParseValue(cfg, Whole(s), d, depth, false);
    var m := Member(k.value, x.value);
    var y := SeparatorSound(cfg, s, x.next, RBRACE);
    ElementOf(cfg, depth, s, d, a, x.next, y, x.value);
    MemberOf(cfg, depth, s, p, e, d - 1, y, m);
    var sep := ParseSeparator(cfg, Whole(s), x.next, RBRACE);
    if sep.value.Done? {
      pairs := [m];
      PutOne(ms, m);
      OneIsNew(ms, m);
      MembersAre(cfg, depth, s, p, sep.next - 1, pairs);
    } else {
      var rest := MembersSound(cfg, s, sep.next, depth, Upsert(ms, m.key, m.value));
      pairs := [m] + rest;
      assert pairs[1..] == rest;
      PutMore(ms, m, rest);
      NewKeysStep(ms, m, rest);
      MembersWiden(cfg, depth, s, y + 1, sep.next, r.next - 1, rest);
      MembersAre(cfg, depth, s, y + 1, r.next - 1, rest);
      MembersAre(cfg, depth, s, p, r.next - 1, pairs);
    }
  }

  lemma PutOne(ms: seq<Member>, m: Member)
    ensures PutAll(ms, [m]) == Upsert(ms, m.key, m.value)
  {
    hide Upsert;
  }

  lemma PutMore(ms: seq<Member>, m: Member, rest: seq<Member>)
    ensures PutAll(ms, [m] + rest) == PutAll(Upsert(ms, m.key, m.value), rest)
  {
    hide Upsert;
    assert ([m] + rest)[1..] == rest;
  }

  lemma MemberOf(cfg: Config, depth: nat, s: bytes, p: nat, b: nat, c: nat, q: nat, m: Member)
    requires p < b <= c < q <= |s| && Key5(cfg, s, p, b, m.key) && Blank5(s, b, c) && s[c] == COLON
    requires Element5(cfg, depth, s, c + 1, q, m.value)
    ensures Member5(cfg, depth, s, p, q, m)
  {
    hide Element5, Key5, Piece;
    assert Named5(cfg, depth, s, p, p, b, c, q, m);
  }

  // ---- what is in the grammar the parser accepts ----

  /** The end of an element: of the text, or in front of punctuation. */
  predicate Ends(s: bytes, q: nat) {
    q <= |s| && (q == |s| || s[q] == ',' as int || s[q] == ']' as int || s[q] == '}' as int)
  }

  lemma EndsOpen(s: bytes, q: nat)
    requires Ends(s, q)
    ensures !OpensBlank(s, q)
  {
    if q < |s| { Printable(s, q); }
  }

  lemma BlankStops(s: bytes, b: nat, q: nat)
    requires b <= q && Blank5(s, b, q) && Ends(s, q)
    ensures Stops5(s, b)
  {
    if b < q {
      var n: nat :| b < n <= q && Piece(s, b, n) && Blank5(s, n, q);
    }
  }

  /** Blanks in front of a value make no difference. */
  lemma ValueFrom(cfg: Config, s: bytes, p: nat, a: nat, depth: nat, top: bool)
    requires Json5Mode(cfg) && p <= a <= |s| && Trivia(s, p, |s|) == Ok((), a) && !OpensBlank(s, a)
    ensures ParseValue(cfg, Whole(s), p, depth, top) == ParseValue(cfg, Whole(s), a, depth, top)
  {
    hide Trivia, OpensBlank, ParseArray, ParseObject, ParseScalar;
    StopsTrivia(s, a);
  }

  lemma {:induction false} ValueRead(cfg: Config, s: bytes, a: nat, b: nat, v: Json, depth: nat, top: bool)
    requires Json5Mode(cfg) && a <= b <= |s| && Value5(cfg, depth, s, a, b, v) && Stops5(s, b)
    ensures a < b && !OpensBlank(s, a) && s[a] != RBRACKET && s[a] != RBRACE
    ensures ParseValue(cfg, Whole(s), a, depth, top) == Ok(v, b)
    decreases b - a, 2
  {
    hide Trivia, ParseValue, ParseArray, ParseObject, ParseScalar, Blank5, Elements5, Members5, OpensBlank, Scalar5,
      Gathered, Stops5;
    if Scalar5(cfg, s, a, b, v) {
      ScalarRead(cfg, s, a, b, v, top);
      Printable(s, a);
      StopsTrivia(s, a);
      ScalarAt(cfg, Whole(s), a, a, depth, top);
    } else {
      FitsIs(cfg, depth);
      Printable(s, a);
      StopsTrivia(s, a);
      if s[a] == LBRACKET {
        ArrayOpens(cfg, Whole(s), a, a, depth, top);
        ArrayRead(cfg, s, a + 1, b - 1, v.items, depth + 1);
      } else {
        ObjectOpens(cfg, Whole(s), a, a, depth, top);
        var pairs :| v.members == Gathered(pairs) && (cfg.strictKeys ==> DistinctKeys(pairs)) &&
          if |pairs| == 0 then Blank5(s, a + 1, b - 1) else Members5(cfg, depth + 1, s, a + 1, b - 1, pairs);
        ObjectRead(cfg, s, a + 1, b - 1, pairs, depth + 1);
      }
    }
  }

  lemma {:induction false} ArrayRead(cfg: Config, s: bytes, p: nat, q: nat, vs: seq<Json>, depth: nat)
    requires Json5Mode(cfg) && p <= q < |s| && s[q] == RBRACKET
    requires if |vs| == 0 then Blank5(s, p, q) else Elements5(cfg, depth, s, p, q, vs)
    ensures ParseArray(cfg, Whole(s), p, depth) == Ok(Arr(vs), q + 1)
    decreases q - p, 5
  {
    hide Trivia, ParseElements, Blank5, Elements5, OpensBlank;
    SkipIs(cfg, s, p);
    if |vs| == 0 {
      Printable(s, q);
      TriviaRead(s, p, q);
      assert vs == [];
    } else {
      var x := ElementsRead(cfg, s, p, q, vs, depth, []);
      assert [] + vs == vs;
    }
  }

  /** An element, read from behind its blanks or from in front of them, up to the byte behind it. */
  lemma {:induction false} ElementRead(cfg: Config, s: bytes, p: nat, q: nat, v: Json, depth: nat, top: bool)
      returns (x: nat, b: nat)
    requires Json5Mode(cfg) && p <= q <= |s| && Element5(cfg, depth, s, p, q, v) && Ends(s, q)
    ensures p <= x < b <= q && Trivia(s, p, |s|) == Ok((), x) && Trivia(s, b, |s|) == Ok((), q)
    ensures ParseValue(cfg, Whole(s), x, depth, top) == Ok(v, b) && ParseValue(cfg, Whole(s), p, depth, top) == Ok(v, b)
    ensures s[x] != RBRACKET && s[x] != RBRACE && !OpensBlank(s, x)
    decreases q - p, 3
  {
    hide Trivia, ParseValue, Blank5, Value5, OpensBlank, Ends, Stops5;
    var a: nat, e: nat :| p <= a <= e <= q && Blank5(s, p, a) && Blank5(s, e, q) && Value5(cfg, depth, s, a, e, v);
    x, b := a, e;
    BlankStops(s, b, q);
    ValueRead(cfg, s, a, b, v, depth, top);
    EndsOpen(s, q);
    TriviaRead(s, b, q);
    TriviaRead(s, p, a);
    ValueFrom(cfg, s, p, a, depth, top);
  }

  /** Behind an item: the closing byte, a comma and the closing byte, or a comma and something else. */
  lemma SeparatorRead(cfg: Config, s: bytes, b: nat, r: nat, close: byte)
    requires Json5Mode(cfg) && b <= r < |s| && Trivia(s, b, |s|) == Ok((), r) && (close == RBRACKET || close == RBRACE)
    ensures var x := ParseSeparator(cfg, Whole(s), b, close);
      && (s[r] == close ==> x == Ok(Done, r + 1))
      && (s[r] == COMMA ==>
            var y := Trivia(s, r + 1, |s|);
            y.Ok? ==> x == if y.next < |s| && s[y.next] == close then Ok(Done, y.next + 1) else Ok(Another, y.next))
  {
    hide Trivia;
  }

  lemma {:induction false} ElementsRead(cfg: Config, s: bytes, p: nat, q: nat, vs: seq<Json>, depth: nat,
    acc: seq<Json>)
      returns (x: nat)
    requires Json5Mode(cfg) && p <= q < |s| && s[q] == RBRACKET && Elements5(cfg, depth, s, p, q, vs)
    ensures p <= x <= q && Trivia(s, p, |s|) == Ok((), x) && s[x] != RBRACKET
    ensures ParseElements(cfg, Whole(s), x, depth, acc) == Ok(Arr(acc + vs), q + 1)
    decreases q - p, 4
  {
    hide Trivia, ParseElements, ParseValue, ParseSeparator, Blank5, Elements5, Element5, OpensBlank;
    ElementsAre(cfg, depth, s, p, q, vs);
    var v := vs[0];
    var b;
    if |vs| == 1 && Element5(cfg, depth, s, p, q, v) {
      x, b := ElementRead(cfg, s, p, q, v, depth, false);
      SeparatorRead(cfg, s, b, q, RBRACKET);
      assert vs == [v];
    } else if |vs| == 1 {
      var m: nat :| p <= m < q && s[m] == COMMA && Element5(cfg, depth, s, p, m, v) && Blank5(s, m + 1, q);
      x, b := ElementRead(cfg, s, p, m, v, depth, false);
      Printable(s, q);
      TriviaRead(s, m + 1, q);
      SeparatorRead(cfg, s, b, m, RBRACKET);
      assert vs == [v];
    } else {
      var m: nat :| p <= m < q && s[m] == COMMA && Element5(cfg, depth, s, p, m, v) &&
        Elements5(cfg, depth, s, m + 1, q, vs[1..]);
      x, b := ElementRead(cfg, s, p, m, v, depth, false);
      var y := ElementsRead(cfg, s, m + 1, q, vs[1..], depth, acc + [v]);
      SeparatorRead(cfg, s, b, m, RBRACKET);
      assert acc + [v] + vs[1..] == acc + vs;
    }
    ElementsStep(cfg, Whole(s), x, depth, acc);
  }

  lemma {:induction false} ObjectRead(cfg: Config, s: bytes, p: nat, q: nat, pairs: seq<Member>, depth: nat)
    requires Json5Mode(cfg) && p <= q < |s| && s[q] == RBRACE
    requires if |pairs| == 0 then Blank5(s, p, q) else Members5(cfg, depth, s, p, q, pairs)
    requires cfg.strictKeys ==> DistinctKeys(pairs)
    ensures ParseObject(cfg, Whole(s), p, depth) == Ok(Obj(Gathered(pairs)), q + 1)
    decreases q - p, 6
  {
    hide Trivia, ParseMembers, Blank5, Members5, OpensBlank, PutAll;
    SkipIs(cfg, s, p);
    if |pairs| == 0 {
      Printable(s, q);
      TriviaRead(s, p, q);
    } else {
      NoneTaken(pairs);
      var x := MembersRead(cfg, s, p, q, pairs, depth, []);
      PutAllGathers(pairs);
    }
  }

  lemma {:induction false} MemberRead(cfg: Config, s: bytes, p: nat, q: nat, m: Member, depth: nat, ms: seq<Member>)
      returns (x: nat, d: nat, b: nat)
    requires Json5Mode(cfg) && p <= q <= |s| && Member5(cfg, depth, s, p, q, m) && Ends(s, q)
    requires cfg.strictKeys ==> m.key !in Keys(ms)
    ensures p <= x < d <= b <= q && Trivia(s, p, |s|) == Ok((), x) && s[x] != RBRACE
    ensures ParseKeyColon(cfg, Whole(s), x, ms) == Ok(m.key, d)
    ensures ParseValue(cfg, Whole(s), d, depth, false) == Ok(m.value, b) && Trivia(s, b, |s|) == Ok((), q)
    decreases q - p, 4
  {
    hide Trivia, ParseValue, ParseKey, Blank5, Key5, Element5, OpensBlank, Ends, Keys;
    var a: nat, e: nat, c: nat :| Named5(cfg, depth, s, p, a, e, c, q, m);
    x, d := a, c + 1;
    KeyStarts(cfg, s, a, e, m.key);
    TriviaRead(s, p, a);
    KeyMeans(cfg, s, a, e, m.key);
    Printable(s, c);
    TriviaRead(s, e, c);
    StopsTrivia(s, a);
    SkipIs(cfg, s, a);
    SkipIs(cfg, s, e);
    var y;
    y, b := ElementRead(cfg, s, d, q, m.value, depth, false);
  }

  lemma {:induction false} MembersRead(cfg: Config, s: bytes, p: nat, q: nat, pairs: seq<Member>, depth: nat,
    ms: seq<Member>)
      returns (x: nat)
    requires Json5Mode(cfg) && p <= q < |s| && s[q] == RBRACE && Members5(cfg, depth, s, p, q, pairs)
    requires cfg.strictKeys ==> NewKeys(ms, pairs)
    ensures p <= x <= q && Trivia(s, p, |s|) == Ok((), x) && s[x] != RBRACE
    ensures ParseMembers(cfg, Whole(s), x, depth, ms) == Ok(Obj(PutAll(ms, pairs)), q + 1)
    decreases q - p, 5
  {
    hide Trivia, ParseMembers, ParseValue, ParseKeyColon, ParseSeparator, Blank5, Members5, Member5, OpensBlank, Upsert,
      PutAll, NewKeys, Keys;
    MembersAre(cfg, depth, s, p, q, pairs);
    var m := pairs[0];
    assert [m] + pairs[1..] == pairs;
    NewKeysStep(ms, m, pairs[1..]);
    var d, b;
    if |pairs| == 1 && Member5(cfg, depth, s, p, q, m) {
      x, d, b := MemberRead(cfg, s, p, q, m, depth, ms);
      SeparatorRead(cfg, s, b, q, RBRACE);
      PutOne(ms, m);
      assert pairs == [m];
    } else if |pairs| == 1 {
      var k: nat :| p <= k < q && s[k] == COMMA && Member5(cfg, depth, s, p, k, m) && Blank5(s, k + 1, q);
      x, d, b := MemberRead(cfg, s, p, k, m, depth, ms);
      Printable(s, q);
      TriviaRead(s, k + 1, q);
      SeparatorRead(cfg, s, b, k, RBRACE);
      PutOne(ms, m);
      assert pairs == [m];
    } else {
      var k: nat :| p <= k < q && s[k] == COMMA && Member5(cfg, depth, s, p, k, m) &&
        Members5(cfg, depth, s, k + 1, q, pairs[1..]);
      x, d, b := MemberRead(cfg, s, p, k, m, depth, ms);
      var y := MembersRead(cfg, s, k + 1, q, pairs[1..], depth, Upsert(ms, m.key, m.value));
      SeparatorRead(cfg, s, b, k, RBRACE);
      PutMore(ms, m, pairs[1..]);
    }
    MembersStep(cfg, Whole(s), x, depth, ms);
  }

  // ---- whole texts ----

  /** A byte order mark is white space to JSON5, so stripping it makes no difference. */
  lemma BomIsBlank(s: bytes)
    requires LiteralAt(s, 0, |s|, BOM)
    ensures Blank5(s, 0, 3) && Trivia(s, 0, |s|) == Trivia(s, 3, |s|)
  {
    hide WideWs;
    assert BOM[0] == 0xEF && BOM[1] == 0xBB && BOM[2] == 0xBF;
    assert White(s, 0, 3) && Piece(s, 0, 3) && Blank5(s, 3, 3);
    WhiteIs(s, 0, 3);
  }

  lemma DocumentSound(cfg: Config, s: bytes)
    requires cfg.json5 && ParseDocument(cfg, Whole(s)).Ok?
    ensures ParseDocument(cfg, Whole(s)).next == |s| && Text5(cfg, s, ParseDocument(cfg, Whole(s)).value)
  {
    hide Trivia, Skip, ParseValue, Blank5, Value5, Element5, OpensBlank, LiteralAt;
    var p := SkipBom(cfg, Whole(s));
    var a := ValueSound(cfg, s, p, 0, true);
    var x := ParseValue(cfg, Whole(s), p, 0, true);
    SkipIs(cfg, s, x.next);
    TriviaSound(s, x.next);
    ElementOf(cfg, 0, s, p, a, x.next, |s|, x.value);
    if p == 3 {
      BomIsBlank(s);
      ElementWidens(cfg, 0, s, 0, 3, |s|, x.value);
    }
  }

  lemma DocumentRead(cfg: Config, s: bytes, v: Json)
    requires Json5Mode(cfg) && Text5(cfg, s, v)
    ensures ParseDocument(cfg, Whole(s)) == Ok(v, |s|)
  {
    hide Trivia, ParseValue, Element5, OpensBlank, LiteralAt;
    var x, b := ElementRead(cfg, s, 0, |s|, v, 0, true);
    if LiteralAt(s, 0, |s|, BOM) {
      BomIsBlank(s);
      BomFits(s);
      TriviaBounds(s, 3);
      ValueFrom(cfg, s, 3, x, 0, true);
    }
  }

  lemma BomFits(s: bytes)
    requires LiteralAt(s, 0, |s|, BOM)
    ensures 3 <= |s|
  {
  }

  lemma TriviaBounds(s: bytes, p: nat)
    requires p <= |s|
    ensures Trivia(s, p, |s|).Ok? ==> p <= Trivia(s, p, |s|).next
  {
  }

  /**
   JSON5 mode decides the grammar: a text is accepted if and only if it is JSON5 within the depth limit and, where keys
   are checked, without a repeated name, with the value it stands for. The UTF-8 check only refuses: what is still
   accepted stands for the same.
   */
  lemma Json5IsGrammar(cfg: Config, s: bytes)
    requires cfg.json5
    ensures forall v :: Json5Mode(cfg) ==> (ParseDocument(cfg, Whole(s)) == Ok(v, |s|) <==> Text5(cfg, s, v))
    ensures ParseDocument(cfg, Whole(s)).Ok? ==>
      ParseDocument(cfg, Whole(s)).next == |s| && Text5(cfg, s, ParseDocument(cfg, Whole(s)).value)
  {
    hide ParseDocument, Text5;
    if ParseDocument(cfg, Whole(s)).Ok? { DocumentSound(cfg, s); }
    forall v | Json5Mode(cfg) && Text5(cfg, s, v) ensures ParseDocument(cfg, Whole(s)) == Ok(v, |s|) {
      DocumentRead(cfg, s, v);
    }
  }

  /** What RFC mode accepts, in any settings, stands for the value RFC mode gives it. */
  lemma RfcValuesToo(cfg: Config, s: bytes)
    requires !cfg.json5 && ParseDocument(cfg, Whole(s)).Ok?
    ensures Text5(Five(cfg), s, ParseDocument(cfg, Whole(s)).value)
  {
    hide ParseDocument, Text5;
    Json5ExtendsRfc(cfg, s);
    Json5IsGrammar(Five(cfg), s);
  }

  // ---- members ----

  /** Pair k is the last of that name. */
  ghost predicate LastOf(pairs: seq<Member>, k: int, key: bytes) {
    0 <= k < |pairs| && pairs[k].key == key && forall j :: k < j < |pairs| ==> pairs[j].key != key
  }

  lemma FirstSnoc(pairs: seq<Member>, m: Member, key: bytes)
    ensures FirstMatch(pairs + [m], key) ==
      if FirstMatch(pairs, key) < |pairs| then FirstMatch(pairs, key) else if m.key == key then |pairs| else |pairs| + 1
  {
    hide FirstMatch;
    var p := FirstMatch(pairs, key);
    FirstMatchUnique(pairs + [m], key, if p < |pairs| then p else if m.key == key then |pairs| else |pairs| + 1);
  }

  /** How one more pair changes the names, and their order. */
  lemma PutNames(init: seq<Member>, m: Member, was: seq<Member>)
    requires forall k :: 0 <= k < |init| ==> FirstMatch(was, init[k].key) < |was|
    requires forall i :: 0 <= i < |was| ==> FirstMatch(init, was[i].key) < |init|
    requires forall i, j :: 0 <= i < j < |was| ==> FirstMatch(init, was[i].key) < FirstMatch(init, was[j].key)
    ensures var pairs := init + [m]; var r := Upsert(was, m.key, m.value);
      && (forall k :: 0 <= k < |pairs| ==> FirstMatch(r, pairs[k].key) < |r|)
      && (forall i :: 0 <= i < |r| ==> FirstMatch(pairs, r[i].key) < |pairs|)
      && (forall i, j :: 0 <= i < j < |r| ==> FirstMatch(pairs, r[i].key) < FirstMatch(pairs, r[j].key))
  {
    hide FirstMatch;
    var pairs := init + [m];
    var r := Upsert(was, m.key, m.value);
    var f := FirstMatch(was, m.key);
    assert r[f].key == m.key;
    forall k | 0 <= k < |pairs| ensures FirstMatch(r, pairs[k].key) < |r| {
      if k < |init| { assert r[FirstMatch(was, init[k].key)].key == init[k].key; }
    }
    forall i | 0 <= i < |r|
      ensures FirstMatch(pairs, r[i].key) == if i < |was| then FirstMatch(init, was[i].key) else |init|
    {
      FirstSnoc(init, m, r[i].key);
      if i == |was| { assert FirstMatch(init, m.key) >= |init|; }
    }
  }

  /** How it changes the values. */
  lemma PutValues(init: seq<Member>, m: Member, was: seq<Member>)
    requires DistinctKeys(was)
    requires forall i, k :: 0 <= i < |was| && LastOf(init, k, was[i].key) ==> was[i].value == init[k].value
    ensures var pairs := init + [m]; var r := Upsert(was, m.key, m.value);
      forall i, k :: 0 <= i < |r| && LastOf(pairs, k, r[i].key) ==> r[i].value == pairs[k].value
  {
    hide FirstMatch;
    var pairs := init + [m];
    var r := Upsert(was, m.key, m.value);
    var f := FirstMatch(was, m.key);
    forall i, k | 0 <= i < |r| && LastOf(pairs, k, r[i].key) ensures r[i].value == pairs[k].value {
      LastSnoc(init, m, k, r[i].key);
      if r[i].key == m.key { assert i == f; }
    }
  }

  lemma LastSnoc(init: seq<Member>, m: Member, k: int, key: bytes)
    requires LastOf(init + [m], k, key)
    ensures if m.key == key then k == |init| else LastOf(init, k, key)
  {
    var pairs := init + [m];
    assert pairs[|init|] == m;
    if m.key != key {
      forall j | k < j < |init| ensures init[j].key != key { assert pairs[j] == init[j]; }
    }
  }

  /** Names come in the order of their first pairs, each once, with the value of the last pair of that name. */
  lemma {:induction false} GatheredMeans(pairs: seq<Member>)
    ensures var r := Gathered(pairs);
      && DistinctKeys(r)
      && (forall k :: 0 <= k < |pairs| ==> FirstMatch(r, pairs[k].key) < |r|)
      && (forall i :: 0 <= i < |r| ==> FirstMatch(pairs, r[i].key) < |pairs|)
      && (forall i, j :: 0 <= i < j < |r| ==> FirstMatch(pairs, r[i].key) < FirstMatch(pairs, r[j].key))
      && (forall i, k :: 0 <= i < |r| && LastOf(pairs, k, r[i].key) ==> r[i].value == pairs[k].value)
    decreases |pairs|
  {
    hide Upsert, FirstMatch;
    if |pairs| > 0 {
      var n := |pairs| - 1;
      var init, m := pairs[..n], pairs[n];
      var was := Gathered(init);
      GatheredMeans(init);
      UpsertKeepsDistinct(was, m.key, m.value);
      PutNames(init, m, was);
      PutValues(init, m, was);
      assert init + [m] == pairs;
    }
  }
}
