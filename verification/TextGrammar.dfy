/**
 The JSON text grammar of sections 2 to 7 of RFC 8259 as a relation on spans of a text, stated without a scanner, and
 the validator and the parser against it. Bytes from 0x80 on stand for the characters beyond ASCII. The library asks for
 one thing the grammar does not: the surrogates among the escapes of a string have to come in pairs.
 */
module TextGrammar {
  import opened Core
  import opened Grammar
  import opened Lexis
  import opened Strings
  import opened Json5Lexer
  import opened ParserSpec
  import opened Validate
  import opened ValidateAgreement

  // ---- the grammar ----

  /** ws. */
  ghost predicate IsBlank(s: bytes, p: nat, q: nat) {
    p <= q <= |s| && forall i :: p <= i < q ==> Blank(s[i])
  }

  predicate IsLiteralToken(s: bytes, p: nat, q: nat) {
    Word(s, p, q, "true") || Word(s, p, q, "false") || Word(s, p, q, "null")
  }

  predicate IsUnescaped(c: byte) { c >= 0x20 && c != '"' as int && c != '\\' as int }

  /** `\uXXXX`. */
  predicate IsUnicodeEscape(s: bytes, i: nat) {
    && i + 6 <= |s| && s[i] == '\\' as int && s[i + 1] == 'u' as int
    && IsHexDigit(s[i + 2]) && IsHexDigit(s[i + 3]) && IsHexDigit(s[i + 4]) && IsHexDigit(s[i + 5])
  }

  /** *char, up to q. */
  predicate IsCharacters(s: bytes, i: nat, q: nat)
    requires q <= |s|
    decreases q - i
  {
    || i == q
    || (i < q && IsUnescaped(s[i]) && IsCharacters(s, i + 1, q))
    || (i + 2 <= q && s[i] == '\\' as int && IsSimple(s[i + 1]) && IsCharacters(s, i + 2, q))
    || (i + 6 <= q && IsUnicodeEscape(s, i) && IsCharacters(s, i + 6, q))
  }

  predicate IsStringToken(s: bytes, p: nat, q: nat) {
    p + 2 <= q <= |s| && s[p] == '"' as int && s[q - 1] == '"' as int && IsCharacters(s, p + 1, q - 1)
  }

  /** value. */
  ghost predicate IsValue(s: bytes, p: nat, q: nat)
    requires p <= q <= |s|
    decreases q - p, 2
  {
    || IsLiteralToken(s, p, q)
    || IsNumberToken(s, p, q)
    || IsStringToken(s, p, q)
    || (p + 2 <= q && s[p] == '[' as int && s[q - 1] == ']' as int
        && (IsBlank(s, p + 1, q - 1) || IsElements(s, p + 1, q - 1)))
    || (p + 2 <= q && s[p] == '{' as int && s[q - 1] == '}' as int
        && (IsBlank(s, p + 1, q - 1) || IsMembers(s, p + 1, q - 1)))
  }

  /** ws value ws. */
  ghost predicate IsElement(s: bytes, p: nat, q: nat)
    requires p <= q <= |s|
    decreases q - p, 3
  {
    exists a: nat, b: nat :: p <= a <= b <= q && IsBlank(s, p, a) && IsBlank(s, b, q) && IsValue(s, a, b)
  }

  /** One element, or an element, a comma and more elements. */
  ghost predicate IsElements(s: bytes, p: nat, q: nat)
    requires p <= q <= |s|
    decreases q - p, 4
  {
    || IsElement(s, p, q)
    || exists m: nat :: p <= m < q && s[m] == ',' as int && IsElement(s, p, m) && IsElements(s, m + 1, q)
  }

  /** ws string ws ':' ws value ws, the colon at c. */
  ghost predicate IsNamed(s: bytes, p: nat, a: nat, b: nat, c: nat, q: nat)
    requires p <= q <= |s|
    decreases q - p, 3
  {
    && p <= a < b <= c < q && IsBlank(s, p, a) && IsStringToken(s, a, b) && IsBlank(s, b, c) && s[c] == ':' as int
    && IsElement(s, c + 1, q)
  }

  /** member. */
  ghost predicate IsMember(s: bytes, p: nat, q: nat)
    requires p <= q <= |s|
    decreases q - p, 4
  {
    exists a: nat, b: nat, c: nat :: IsNamed(s, p, a, b, c, q)
  }

  ghost predicate IsMembers(s: bytes, p: nat, q: nat)
    requires p <= q <= |s|
    decreases q - p, 5
  {
    || IsMember(s, p, q)
    || exists m: nat :: p <= m < q && s[m] == ',' as int && IsMember(s, p, m) && IsMembers(s, m + 1, q)
  }

  /** JSON-text. */
  ghost predicate IsText(s: bytes) { IsElement(s, 0, |s|) }

  // ---- surrogate pairs ----

  function UnicodeValue(s: bytes, i: nat): int
    requires IsUnicodeEscape(s, i)
  {
    ((HexDigitOf(s[i + 2]) * 16 + HexDigitOf(s[i + 3])) * 16 + HexDigitOf(s[i + 4])) * 16 + HexDigitOf(s[i + 5])
  }

  /** From p on, which lies outside every string: no string holds an escaped surrogate that is not half of a pair. */
  predicate Paired(s: bytes, p: nat)
    decreases |s| - p
  {
    p >= |s| || if s[p] == '"' as int then PairedInside(s, p + 1) else Paired(s, p + 1)
  }

  /** The same from p on, which lies inside a string. */
  predicate PairedInside(s: bytes, p: nat)
    decreases |s| - p
  {
    || p >= |s|
    || if s[p] == '"' as int then Paired(s, p + 1)
       else if !IsUnicodeEscape(s, p) then PairedInside(s, if s[p] == '\\' as int then p + 2 else p + 1)
       else
         var cp := UnicodeValue(s, p);
         if HighSurrogate(cp) then
           IsUnicodeEscape(s, p + 6) && LowSurrogate(UnicodeValue(s, p + 6)) && PairedInside(s, p + 12)
         else !LowSurrogate(cp) && PairedInside(s, p + 6)
  }

  lemma {:induction false} NoQuotes(s: bytes, p: nat, q: nat)
    requires p <= q <= |s| && forall i :: p <= i < q ==> s[i] != QUOTE
    ensures Paired(s, p) == Paired(s, q)
    decreases q - p
  {
    if p < q { NoQuotes(s, p + 1, q); }
  }

  lemma BlankPaired(s: bytes, p: nat, q: nat)
    requires IsBlank(s, p, q)
    ensures Paired(s, p) == Paired(s, q)
  {
    NoQuotes(s, p, q);
  }

  lemma NumberPaired(s: bytes, p: nat, q: nat)
    requires IsNumberToken(s, p, q)
    ensures p < q <= |s| && StartsNumber(s[p]) && Paired(s, p) == Paired(s, q)
  {
    var i: nat, j: nat, k: nat :| IsNumberSplit(s, p, i, j, k, q);
    assert IsDigit(s[i]);
    NoQuotes(s, p, q);
  }

  lemma WordIs(s: bytes, p: nat, q: nat, w: string, word: bytes)
    requires |w| == |word| && forall i :: 0 <= i < |w| ==> w[i] as int == word[i]
    ensures Word(s, p, q, w) <==> LiteralAt(s, p, |s|, word) && q == p + |word|
  {
  }

  lemma LiteralTokenIs(s: bytes, p: nat, q: nat)
    ensures IsLiteralToken(s, p, q) <==>
      (|| (LiteralAt(s, p, |s|, TRUE) && q == p + 4)
       || (LiteralAt(s, p, |s|, FALSE) && q == p + 5)
       || (LiteralAt(s, p, |s|, NULL) && q == p + 4))
  {
    hide LiteralAt, Word;
    WordIs(s, p, q, "true", TRUE);
    WordIs(s, p, q, "false", FALSE);
    WordIs(s, p, q, "null", NULL);
  }

  lemma WordHasNoQuote(s: bytes, p: nat, word: bytes)
    requires |word| > 0 && forall i :: 0 <= i < |word| ==> word[i] >= 0x61
    ensures LiteralAt(s, p, |s|, word) ==> s[p] == word[0] && forall i :: p <= i < p + |word| ==> s[i] != QUOTE
  {
    if LiteralAt(s, p, |s|, word) {
      assert s[p + 0] == word[0];
      forall i | p <= i < p + |word| ensures s[i] != QUOTE { assert s[p + (i - p)] == word[i - p]; }
    }
  }

  lemma LiteralPaired(s: bytes, p: nat, q: nat)
    requires IsLiteralToken(s, p, q)
    ensures p < q <= |s| && StartsLiteral(s[p]) && Paired(s, p) == Paired(s, q)
  {
    hide IsLiteralToken, Word;
    LiteralTokenIs(s, p, q);
    WordHasNoQuote(s, p, TRUE);
    WordHasNoQuote(s, p, FALSE);
    WordHasNoQuote(s, p, NULL);
    NoQuotes(s, p, q);
  }

  // ---- strings ----

  lemma HexIs(s: bytes, i: nat)
    requires i < |s| && s[i] == BACKSLASH
    ensures IsUnicodeEscape(s, i) <==> i + 1 < |s| && s[i + 1] == LOWER_U && VHex4(s, i + 2).Some?
    ensures IsUnicodeEscape(s, i) ==> VHex4(s, i + 2) == Some(UnicodeValue(s, i))
  {
  }

  /** The validator's escape in terms of the grammar. */
  lemma EscapeIs(s: bytes, i: nat)
    requires i < |s| && s[i] == BACKSLASH
    ensures VEscape(s, i) ==
      if i + 1 >= |s| then None
      else if s[i + 1] != LOWER_U then (if IsSimple(s[i + 1]) then Some(i + 2) else None)
      else if !IsUnicodeEscape(s, i) then None
      else if IsHighSurrogate(UnicodeValue(s, i)) then
        (if IsUnicodeEscape(s, i + 6) && IsLowSurrogate(UnicodeValue(s, i + 6)) then Some(i + 12) else None)
      else if IsLowSurrogate(UnicodeValue(s, i)) then None
      else Some(i + 6)
  {
    hide VHex4, UnicodeValue, IsUnicodeEscape;
    HexIs(s, i);
    if i + 6 < |s| && s[i + 6] == BACKSLASH { HexIs(s, i + 6); }
    EscapeLength(s, i);
    EscapeLength(s, i + 6);
    if i + 1 < |s| { ShortIsSimple(s[i + 1]); }
  }

  lemma ShortIsSimple(c: byte)
    ensures IsShortEscape(c) <==> IsSimple(c)
  {
  }

  lemma EscapeLength(s: bytes, i: nat)
    ensures IsUnicodeEscape(s, i) ==> i + 6 <= |s| && s[i] == BACKSLASH && s[i + 1] == LOWER_U
    ensures !IsSimple(LOWER_U)
  {
  }

  /** On the characters of a string the validator reaches the closing quote, unless a surrogate is alone. */
  lemma {:induction false} CharactersRead(s: bytes, i: nat, q: nat)
    requires i <= q < |s| && s[q] == QUOTE && IsCharacters(s, i, q)
    ensures PairedInside(s, i) <==> VString(s, i) == Some(q + 1) && Paired(s, q + 1)
    ensures VString(s, i).Some? ==> VString(s, i) == Some(q + 1)
    decreases q - i
  {
    hide VEscape, IsUnicodeEscape, UnicodeValue, IsSimple, Paired;
    if i < q {
      EscapeLength(s, i);
      if s[i] != BACKSLASH {
        CharactersRead(s, i + 1, q);
      } else {
        EscapeIs(s, i);
        if s[i + 1] != LOWER_U {
          CharactersRead(s, i + 2, q);
        } else {
          UnicodeRead(s, i, q);
        }
      }
    }
  }

  lemma {:induction false} UnicodeRead(s: bytes, i: nat, q: nat)
    requires i + 6 <= q < |s| && s[q] == QUOTE && IsUnicodeEscape(s, i) && IsCharacters(s, i + 6, q)
    ensures PairedInside(s, i) <==> VString(s, i) == Some(q + 1) && Paired(s, q + 1)
    ensures VString(s, i).Some? ==> VString(s, i) == Some(q + 1)
    decreases q - i, 0
  {
    hide VEscape, IsUnicodeEscape, UnicodeValue, IsSimple, Paired;
    EscapeLength(s, i);
    EscapeIs(s, i);
    if IsHighSurrogate(UnicodeValue(s, i)) {
      if IsUnicodeEscape(s, i + 6) {
        EscapeLength(s, i + 6);
        CharactersRead(s, i + 12, q);
      }
    } else {
      CharactersRead(s, i + 6, q);
    }
  }

  /** What the validator reads as a string are characters up to a quote, with their surrogates in pairs. */
  lemma {:induction false} StringSound(s: bytes, i: nat)
    requires VString(s, i).Some?
    ensures var n := VString(s, i).value;
      i < n <= |s| && s[n - 1] == QUOTE && IsCharacters(s, i, n - 1) && PairedInside(s, i) == Paired(s, n)
    decreases |s| - i
  {
    hide VEscape, IsUnicodeEscape, UnicodeValue, IsSimple, Paired;
    EscapeLength(s, i);
    if s[i] != QUOTE {
      if s[i] == BACKSLASH {
        EscapeIs(s, i);
        var k := VEscape(s, i).value;
        StringSound(s, k);
        EscapeLength(s, i + 6);
      } else {
        StringSound(s, i + 1);
      }
    }
  }

  // ---- what the validator accepts is in the grammar ----

  lemma SkipsBlank(s: bytes, p: nat)
    requires p <= |s|
    ensures IsBlank(s, p, SkipWs(s, p))
  {
  }

  lemma {:induction false} BlankSkipped(s: bytes, p: nat, q: nat)
    requires IsBlank(s, p, q) && !IsWs(At(s, q))
    ensures SkipWs(s, p) == q
    decreases q - p
  {
    if p < q { BlankSkipped(s, p + 1, q); }
  }

  lemma ElementOf(s: bytes, p: nat, a: nat, b: nat, q: nat)
    requires p <= a <= b <= q <= |s| && IsBlank(s, p, a) && IsValue(s, a, b) && IsBlank(s, b, q)
    ensures IsElement(s, p, q)
  {
  }

  /** White space in front of elements belongs to the first of them. */
  lemma ElementsWiden(s: bytes, p: nat, x: nat, q: nat)
    requires p <= x <= q <= |s| && IsBlank(s, p, x) && IsElements(s, x, q)
    ensures IsElements(s, p, q)
  {
    hide IsValue, IsElements;
    ElementsAre(s, x, q);
    ElementsAre(s, p, q);
    if IsElement(s, x, q) {
      ElementWidens(s, p, x, q);
    } else {
      var m: nat :| x <= m < q && s[m] == COMMA && IsElement(s, x, m) && IsElements(s, m + 1, q);
      ElementWidens(s, p, x, m);
    }
  }

  lemma ElementsAre(s: bytes, p: nat, q: nat)
    requires p <= q <= |s|
    ensures IsElements(s, p, q) <==>
      (|| IsElement(s, p, q)
       || exists m: nat :: p <= m < q && s[m] == COMMA && IsElement(s, p, m) && IsElements(s, m + 1, q))
  {
    hide IsElement;
  }

  lemma ElementWidens(s: bytes, p: nat, x: nat, q: nat)
    requires p <= x <= q <= |s| && IsBlank(s, p, x) && IsElement(s, x, q)
    ensures IsElement(s, p, q)
  {
    hide IsValue;
    var a: nat, b: nat :| x <= a <= b <= q && IsBlank(s, x, a) && IsBlank(s, b, q) && IsValue(s, a, b);
    ElementOf(s, p, a, b, q);
  }

  lemma {:induction false} ValueSound(s: bytes, p: nat)
    requires p <= |s| && VValue(s, p).Some?
    ensures var a, b := SkipWs(s, p), VValue(s, p).value;
      a < b <= |s| && IsValue(s, a, b) && Paired(s, p) == Paired(s, b)
    decreases |s| - p, 3
  {
    hide VArray, VObject, VString, VNumber, VLiteral, Paired, PairedInside, IsElements, IsMembers, IsCharacters;
    var a := SkipWs(s, p);
    SkipsBlank(s, p);
    BlankPaired(s, p, a);
    ValueEnd(s, p);
    var c := s[a];
    if c == LBRACKET {
      ArraySound(s, a + 1);
      OneByte(s, a);
    } else if c == LBRACE {
      ObjectSound(s, a + 1);
      OneByte(s, a);
    } else {
      ScalarSound(s, p, a);
    }
  }

  lemma OneByte(s: bytes, p: nat)
    requires p < |s| && s[p] != QUOTE
    ensures Paired(s, p) == Paired(s, p + 1)
  {
  }

  lemma ScalarSound(s: bytes, p: nat, a: nat)
    requires p <= |s| && VValue(s, p).Some? && a == SkipWs(s, p) < |s| && s[a] != LBRACKET && s[a] != LBRACE
    ensures var b := VValue(s, p).value;
      a <= b <= |s| && (IsLiteralToken(s, a, b) || IsNumberToken(s, a, b) || IsStringToken(s, a, b)) &&
      Paired(s, a) == Paired(s, b)
  {
    hide VString, LiteralAt, Paired, PairedInside, IsCharacters, IsNumberToken, Scan, SkipWs;
    var b := VValue(s, p).value;
    if s[a] == QUOTE {
      StringSound(s, a + 1);
      StringOpens(s, a);
    } else if StartsLiteral(s[a]) {
      LiteralTokenIs(s, a, b);
      LiteralPaired(s, a, b);
    } else {
      ScanSound(s, a, |s|);
      NumberPaired(s, a, b);
    }
  }

  lemma StringOpens(s: bytes, p: nat)
    requires p < |s| && s[p] == QUOTE
    ensures Paired(s, p) == PairedInside(s, p + 1)
  {
  }

  lemma {:induction false} ArraySound(s: bytes, p: nat)
    requires p <= |s| && VArray(s, p).Some?
    ensures var n := VArray(s, p).value;
      p < n <= |s| && s[n - 1] == RBRACKET && (IsBlank(s, p, n - 1) || IsElements(s, p, n - 1)) &&
      Paired(s, p) == Paired(s, n)
    decreases |s| - p, 5
  {
    hide VElements, Paired, IsElements;
    var q := SkipWs(s, p);
    SkipsBlank(s, p);
    BlankPaired(s, p, q);
    if q < |s| && s[q] == RBRACKET {
      OneByte(s, q);
    } else {
      ElementsSound(s, q);
      ElementsWiden(s, p, q, VArray(s, p).value - 1);
    }
  }

  lemma {:induction false} ElementsSound(s: bytes, p: nat)
    requires p <= |s| && VElements(s, p).Some?
    ensures var n := VElements(s, p).value;
      p < n <= |s| && s[n - 1] == RBRACKET && IsElements(s, p, n - 1) && Paired(s, p) == Paired(s, n)
    decreases |s| - p, 4
  {
    hide VElements, VValue, Paired, IsElements, IsValue, SkipWs;
    VStep(s, p);
    ValueSound(s, p);
    var a, b := SkipWs(s, p), VValue(s, p).value;
    var q := SkipWs(s, b);
    SkipsBlank(s, p);
    SkipsBlank(s, b);
    BlankPaired(s, b, q);
    ElementOf(s, p, a, b, q);
    OneByte(s, q);
    if s[q] == RBRACKET {
      ElementsAre(s, p, q);
    } else {
      var x, n := SkipWs(s, q + 1), VElements(s, p).value;
      SkipsBlank(s, q + 1);
      BlankPaired(s, q + 1, x);
      ElementsSound(s, x);
      ElementsWiden(s, q + 1, x, n - 1);
      ElementsAre(s, p, n - 1);
    }
  }

  lemma VStep(s: bytes, p: nat)
    requires p <= |s|
    ensures var v := VValue(s, p); var r := VElements(s, p);
      if v.None? then r.None?
      else
        var q := SkipWs(s, v.value);
        if At(s, q) == RBRACKET then r == Some(q + 1)
        else if At(s, q) == COMMA then r == VElements(s, SkipWs(s, q + 1))
        else r.None?
    ensures var v := VValue(s, p);
      v.Some? ==> var q := SkipWs(s, v.value); VElements(s, p).Some? ==> q < |s| && (s[q] == RBRACKET || s[q] == COMMA)
  {
    hide VValue;
  }

  // ---- objects ----

  lemma MembersAre(s: bytes, p: nat, q: nat)
    requires p <= q <= |s|
    ensures IsMembers(s, p, q) <==>
      (|| IsMember(s, p, q)
       || exists m: nat :: p <= m < q && s[m] == COMMA && IsMember(s, p, m) && IsMembers(s, m + 1, q))
  {
    hide IsMember;
  }

  /** What a key and a colon are in the grammar. */
  lemma KeySound(s: bytes, p: nat)
    requires p <= |s| && VKey(s, p).Some?
    ensures var a := SkipWs(s, p); var b := VString(s, a + 1).value; var c := VKey(s, p).value - 1;
      && VString(s, a + 1).Some? && p <= a < b <= c < |s|
      && IsBlank(s, p, a) && IsStringToken(s, a, b) && IsBlank(s, b, c) && s[c] == COLON
      && Paired(s, p) == Paired(s, c + 1)
  {
    hide VString, Paired, PairedInside, IsCharacters;
    var a := SkipWs(s, p);
    SkipsBlank(s, p);
    BlankPaired(s, p, a);
    StringSound(s, a + 1);
    StringOpens(s, a);
    var b := VString(s, a + 1).value;
    SkipsBlank(s, b);
    BlankPaired(s, b, SkipWs(s, b));
    OneByte(s, SkipWs(s, b));
  }

  lemma {:induction false} ObjectSound(s: bytes, p: nat)
    requires p <= |s| && VObject(s, p).Some?
    ensures var n := VObject(s, p).value;
      p < n <= |s| && s[n - 1] == RBRACE && (IsBlank(s, p, n - 1) || IsMembers(s, p, n - 1)) &&
      Paired(s, p) == Paired(s, n)
    decreases |s| - p, 5
  {
    hide VMembers, Paired, IsMembers;
    var q := SkipWs(s, p);
    SkipsBlank(s, p);
    BlankPaired(s, p, q);
    if q < |s| && s[q] == RBRACE {
      OneByte(s, q);
    } else {
      MembersSound(s, q);
      MembersWiden(s, p, q, VObject(s, p).value - 1);
    }
  }

  lemma MembersWiden(s: bytes, p: nat, x: nat, q: nat)
    requires p <= x <= q <= |s| && IsBlank(s, p, x) && IsMembers(s, x, q)
    ensures IsMembers(s, p, q)
  {
    hide IsElement, IsMembers;
    MembersAre(s, x, q);
    MembersAre(s, p, q);
    if IsMember(s, x, q) {
      MemberWidens(s, p, x, q);
    } else {
      var m: nat :| x <= m < q && s[m] == COMMA && IsMember(s, x, m) && IsMembers(s, m + 1, q);
      MemberWidens(s, p, x, m);
    }
  }

  lemma MemberWidens(s: bytes, p: nat, x: nat, q: nat)
    requires p <= x <= q <= |s| && IsBlank(s, p, x) && IsMember(s, x, q)
    ensures IsMember(s, p, q)
  {
    hide IsElement;
    var a: nat, b: nat, c: nat :| IsNamed(s, x, a, b, c, q);
    assert IsNamed(s, p, a, b, c, q);
  }

  lemma {:induction false} MembersSound(s: bytes, p: nat)
    requires p <= |s| && VMembers(s, p).Some?
    ensures var n := VMembers(s, p).value;
      p < n <= |s| && s[n - 1] == RBRACE && IsMembers(s, p, n - 1) && Paired(s, p) == Paired(s, n)
    decreases |s| - p, 4
  {
    hide VMembers, VValue, VKey, VString, Paired, IsMembers, IsValue, IsElement, SkipWs, IsStringToken, IsMember;
    VMemberStep(s, p);
    KeySound(s, p);
    var a, d := SkipWs(s, p), VKey(s, p).value;
    ValueSound(s, d);
    var b := VValue(s, d).value;
    var q := SkipWs(s, b);
    SkipsBlank(s, d);
    SkipsBlank(s, b);
    BlankPaired(s, b, q);
    ElementOf(s, d, SkipWs(s, d), b, q);
    MemberOf(s, p, a, VString(s, a + 1).value, d - 1, q);
    OneByte(s, q);
    if s[q] == RBRACE {
      MembersAre(s, p, q);
    } else {
      MembersSound(s, q + 1);
      MembersAre(s, p, VMembers(s, p).value - 1);
    }
  }

  lemma MemberOf(s: bytes, p: nat, a: nat, b: nat, c: nat, q: nat)
    requires p <= a < b <= c < q <= |s| && IsBlank(s, p, a) && IsStringToken(s, a, b) && IsBlank(s, b, c)
    requires s[c] == COLON && IsElement(s, c + 1, q)
    ensures IsMember(s, p, q)
  {
    hide IsElement;
    assert IsNamed(s, p, a, b, c, q);
  }

  lemma VMemberStep(s: bytes, p: nat)
    requires p <= |s|
    ensures var k := VKey(s, p); var r := VMembers(s, p);
      if k.None? then r.None?
      else
        var v := VValue(s, k.value);
        if v.None? then r.None?
        else
          var q := SkipWs(s, v.value);
          if At(s, q) == RBRACE then r == Some(q + 1)
          else if At(s, q) == COMMA then r == VMembers(s, q + 1)
          else r.None?
    ensures VMembers(s, p).Some? ==>
      && VKey(s, p).Some? && VValue(s, VKey(s, p).value).Some?
      && var q := SkipWs(s, VValue(s, VKey(s, p).value).value); q < |s| && (s[q] == RBRACE || s[q] == COMMA)
  {
    hide VValue, VKey;
  }

  // ---- what is in the grammar the validator accepts ----

  /** What may stand behind a value of a text. */
  predicate Stops(s: bytes, b: nat) {
    b <= |s| && (b == |s| || IsWs(s[b]) || s[b] == COMMA || s[b] == RBRACKET || s[b] == RBRACE)
  }

  /** The validator reads a value that starts at a up to b. */
  ghost predicate Reads(s: bytes, a: nat, b: nat) {
    a < b <= |s| && SkipWs(s, a) == a && VValue(s, a) == Some(b) && Paired(s, b)
  }

  lemma ScalarRead(s: bytes, a: nat, b: nat)
    requires a <= b <= |s| && Stops(s, b) && Paired(s, a)
    requires IsLiteralToken(s, a, b) || IsNumberToken(s, a, b) || IsStringToken(s, a, b)
    ensures Reads(s, a, b) && s[a] != RBRACKET && s[a] != RBRACE
  {
    hide VString, LiteralAt, Paired, PairedInside, IsCharacters, IsNumberToken, Scan, VArray, VObject;
    if IsStringToken(s, a, b) {
      StringOpens(s, a);
      CharactersRead(s, a + 1, b - 1);
    } else if IsLiteralToken(s, a, b) {
      LiteralPaired(s, a, b);
      LiteralRead(s, a, b);
    } else {
      NumberPaired(s, a, b);
      ScanComplete(s, a, b, |s|);
    }
  }

  lemma LiteralRead(s: bytes, a: nat, b: nat)
    requires IsLiteralToken(s, a, b) && a < |s|
    ensures s[a] == 0x74 ==> LiteralAt(s, a, |s|, TRUE) && b == a + 4
    ensures s[a] == 0x66 ==> LiteralAt(s, a, |s|, FALSE) && b == a + 5
    ensures s[a] == 0x6E ==> LiteralAt(s, a, |s|, NULL) && b == a + 4
  {
    hide LiteralAt, IsLiteralToken;
    LiteralTokenIs(s, a, b);
    LiteralByFirst(s, a);
  }

  lemma {:induction false} ValueRead(s: bytes, a: nat, b: nat)
    requires a <= b <= |s| && IsValue(s, a, b) && Stops(s, b) && Paired(s, a)
    ensures Reads(s, a, b) && s[a] != RBRACKET && s[a] != RBRACE
    decreases b - a, 2
  {
    hide IsElements, IsMembers, VArray, VObject, VNumber, VString, VLiteral, Paired, IsNumberToken, IsLiteralToken,
      IsStringToken;
    if IsLiteralToken(s, a, b) || IsNumberToken(s, a, b) || IsStringToken(s, a, b) {
      ScalarRead(s, a, b);
    } else if s[a] == LBRACKET {
      OneByte(s, a);
      OneByte(s, b - 1);
      ArrayRead(s, a + 1, b - 1);
    } else {
      OneByte(s, a);
      OneByte(s, b - 1);
      ObjectRead(s, a + 1, b - 1);
    }
  }

  lemma {:induction false} ArrayRead(s: bytes, p: nat, q: nat)
    requires p <= q < |s| && s[q] == RBRACKET && Paired(s, p) && (IsBlank(s, p, q) || IsElements(s, p, q))
    ensures VArray(s, p) == Some(q + 1) && Paired(s, q)
    decreases q - p, 5
  {
    hide IsElements, VElements, Paired;
    if IsBlank(s, p, q) {
      BlankSkipped(s, p, q);
      BlankPaired(s, p, q);
    } else {
      ElementsRead(s, p, q);
    }
  }

  /** ws value ws, read up to the byte behind it. */
  lemma {:induction false} ElementRead(s: bytes, p: nat, q: nat) returns (b: nat)
    requires p <= q <= |s| && IsElement(s, p, q) && Paired(s, p) && Stops(s, q) && !IsWs(At(s, q))
    ensures p <= SkipWs(s, p) < b <= q && Reads(s, SkipWs(s, p), b) && SkipWs(s, b) == q && Paired(s, q)
    ensures VValue(s, p) == Some(b) && s[SkipWs(s, p)] != RBRACKET && s[SkipWs(s, p)] != RBRACE
    decreases q - p, 3
  {
    hide IsValue, VValue, Paired;
    var a: nat, e: nat :| p <= a <= e <= q && IsBlank(s, p, a) && IsBlank(s, e, q) && IsValue(s, a, e);
    b := e;
    BlankPaired(s, p, a);
    ValueRead(s, a, b);
    BlankSkipped(s, p, a);
    BlankSkipped(s, b, q);
    BlankPaired(s, b, q);
    VValueAt(s, p);
  }

  lemma {:induction false} ElementsRead(s: bytes, p: nat, q: nat)
    requires p <= q < |s| && s[q] == RBRACKET && Paired(s, p) && IsElements(s, p, q)
    ensures VElements(s, SkipWs(s, p)) == Some(q + 1) && Paired(s, q) && s[SkipWs(s, p)] != RBRACKET
    decreases q - p, 4
  {
    hide IsElement, IsElements, VElements, VValue, Paired, Reads, SkipWs;
    ElementsAre(s, p, q);
    var x := SkipWs(s, p);
    VStep(s, x);
    if IsElement(s, p, q) {
      var b := ElementRead(s, p, q);
      ReadIs(s, x, b);
    } else {
      var m: nat :| p <= m < q && s[m] == COMMA && IsElement(s, p, m) && IsElements(s, m + 1, q);
      var b := ElementRead(s, p, m);
      ReadIs(s, x, b);
      OneByte(s, m);
      ElementsRead(s, m + 1, q);
    }
  }

  lemma ReadIs(s: bytes, a: nat, b: nat)
    requires Reads(s, a, b)
    ensures a <= |s| && VValue(s, a) == Some(b)
  {
  }

  lemma {:induction false} ObjectRead(s: bytes, p: nat, q: nat)
    requires p <= q < |s| && s[q] == RBRACE && Paired(s, p) && (IsBlank(s, p, q) || IsMembers(s, p, q))
    ensures VObject(s, p) == Some(q + 1) && Paired(s, q)
    decreases q - p, 6
  {
    hide IsMembers, VMembers, Paired;
    if IsBlank(s, p, q) {
      BlankSkipped(s, p, q);
      BlankPaired(s, p, q);
    } else {
      MembersRead(s, p, q, SkipWs(s, p));
    }
  }

  lemma {:induction false} MemberRead(s: bytes, p: nat, q: nat, x: nat) returns (d: nat, b: nat)
    requires p <= q <= |s| && IsMember(s, p, q) && Paired(s, p) && Stops(s, q) && !IsWs(At(s, q))
    requires x <= |s| && SkipWs(s, x) == SkipWs(s, p)
    ensures VKey(s, x) == Some(d) && d <= |s| && VValue(s, d) == Some(b) && b <= |s|
    ensures SkipWs(s, b) == q && Paired(s, q)
    ensures SkipWs(s, p) < |s| && s[SkipWs(s, p)] == QUOTE
    decreases q - p, 4
  {
    hide IsElement, VValue, VString, Paired, PairedInside, IsCharacters, Reads;
    var a: nat, e: nat, c: nat :| IsNamed(s, p, a, e, c, q);
    BlankPaired(s, p, a);
    BlankSkipped(s, p, a);
    StringOpens(s, a);
    CharactersRead(s, a + 1, e - 1);
    BlankPaired(s, e, c);
    BlankSkipped(s, e, c);
    OneByte(s, c);
    d := c + 1;
    b := ElementRead(s, d, q);
  }

  lemma {:induction false} MembersRead(s: bytes, p: nat, q: nat, x: nat)
    requires p <= q < |s| && s[q] == RBRACE && Paired(s, p) && IsMembers(s, p, q)
    requires x <= |s| && SkipWs(s, x) == SkipWs(s, p)
    ensures VMembers(s, x) == Some(q + 1) && Paired(s, q) && SkipWs(s, p) < |s| && s[SkipWs(s, p)] == QUOTE
    decreases q - p, 5
  {
    hide IsMember, IsMembers, VMembers, VValue, VKey, Paired, SkipWs;
    MembersAre(s, p, q);
    VMemberStep(s, x);
    if IsMember(s, p, q) {
      var d, b := MemberRead(s, p, q, x);
    } else {
      var m: nat :| p <= m < q && s[m] == COMMA && IsMember(s, p, m) && IsMembers(s, m + 1, q);
      var d, b := MemberRead(s, p, m, x);
      OneByte(s, m);
      MembersRead(s, m + 1, q, m + 1);
    }
  }

  // ---- the theorems ----

  /** The validator accepts exactly the texts of the grammar in which escaped surrogates come in pairs. */
  lemma ValidIsGrammar(s: bytes)
    ensures ValidText(s) <==> IsText(s) && Paired(s, 0)
  {
    hide VValue, IsValue;
    var n := |s|;
    if ValidText(s) {
      ValueSound(s, 0);
      var a, b := SkipWs(s, 0), VValue(s, 0).value;
      SkipsBlank(s, 0);
      SkipsBlank(s, b);
      BlankPaired(s, b, n);
      ElementOf(s, 0, a, b, n);
    }
    if IsText(s) && Paired(s, 0) {
      hide IsElement;
      var b := ElementRead(s, 0, n);
    }
  }

  /**
   In RFC mode, with unlimited depth and no further strictness, the parser accepts exactly the texts of the grammar in
   which escaped surrogates come in pairs and every number is taken as an integer or found in range.
   */
  lemma ParserIsGrammar(cfg: Config, s: bytes)
    requires Plain(cfg)
    ensures ParseDocument(cfg, Whole(s)).Ok? <==> IsText(s) && Paired(s, 0) && NumbersPass(cfg.lib, s)
  {
    hide ParseDocument, IsText, Paired, NumbersPass, ValidText;
    ValidatorAgreesWithParser(cfg, s);
    ValidIsGrammar(s);
  }

  /** A text of the grammar that both refuse: a surrogate on its own. */
  lemma LoneSurrogate(cfg: Config)
    requires Plain(cfg)
    ensures var s: bytes := [QUOTE, BACKSLASH, LOWER_U, 0x44, 0x38, 0x30, 0x30, QUOTE];
      IsText(s) && !ValidText(s) && ParseDocument(cfg, Whole(s)).Fail?
  {
    var s: bytes := [QUOTE, BACKSLASH, LOWER_U, 0x44, 0x38, 0x30, 0x30, QUOTE];
    assert IsUnicodeEscape(s, 1) && UnicodeValue(s, 1) == 0xD800;
    assert IsCharacters(s, 7, 7);
    assert IsCharacters(s, 1, 7);
    assert IsValue(s, 0, 8);
    assert IsBlank(s, 0, 0) && IsBlank(s, 8, 8);
    ElementOf(s, 0, 0, 8, 8);
    assert !PairedInside(s, 1);
    assert !Paired(s, 0);
    ValidIsGrammar(s);
    ParserIsGrammar(cfg, s);
  }
}
