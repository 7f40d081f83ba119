/**
 JSON Pointers (RFC 6901 sections 3 and 4): splitting and unescaping, the two index readings, and the fact that
 writing reference tokens as a pointer and reading it back gives the tokens.
 */
module Pointers {
  import opened Core
  import opened Grammar
  import opened Numbers

  const ZERO: byte := 0x30
  const ONE: byte := 0x31

  /** The next '/' at or after p, or |s|. */
  function NextSlash(s: bytes, p: nat): (q: nat)
    requires p <= |s|
    ensures p <= q <= |s| && (q < |s| ==> s[q] == SLASH) && forall i :: p <= i < q ==> s[i] != SLASH
    decreases |s| - p
  {
    if p == |s| || s[p] == SLASH then p else NextSlash(s, p + 1)
  }

  /** The reference token s[i..e] with ~1 and ~0 decoded in one pass; None for any other '~'. */
  function Unescape(s: bytes, i: nat, e: nat): Option<bytes>
    requires i <= e <= |s|
    decreases e - i
  {
    if i == e then Some([])
    else if s[i] != TILDE then Prepend(s[i], Unescape(s, i + 1, e))
    else if i + 1 == e then None
    else if s[i + 1] == ZERO then Prepend(TILDE, Unescape(s, i + 2, e))
    else if s[i + 1] == ONE then Prepend(SLASH, Unescape(s, i + 2, e))
    else None
  }

  function Prepend(c: byte, t: Option<bytes>): Option<bytes> {
    match t
    case None => None
    case Some(u) => Some([c] + u)
  }

  /** The tokens of a pointer whose next token starts at p. */
  function TokensFrom(s: bytes, p: nat): Option<seq<bytes>>
    requires p <= |s|
    decreases |s| - p
  {
    var e := NextSlash(s, p);
    match Unescape(s, p, e)
    case None => None
    case Some(t) =>
      if e == |s| then Some([t])
      else
        match TokensFrom(s, e + 1)
        case None => None
        case Some(rest) => Some([t] + rest)
  }

  /** parse_json_pointer: None is the invalid_argument outcome. */
  function ParsePointer(s: bytes): Option<seq<bytes>> {
    if |s| == 0 then Some([]) else if s[0] != SLASH then None else TokensFrom(s, 1)
  }

  // ---- the loops ----

  method FindSlash(s: bytes, start: nat) returns (q: nat)
    requires start <= |s|
    ensures q == NextSlash(s, start)
  {
    q := start;
    while q < |s| && s[q] != SLASH
      invariant start <= q <= |s| && NextSlash(s, start) == NextSlash(s, q)
    {
      q := q + 1;
    }
  }

  /** out with t put in front of whatever follows. */
  function Onto(out: bytes, t: Option<bytes>): Option<bytes> {
    match t
    case None => None
    case Some(u) => Some(out + u)
  }

  method UnescapeToken(s: bytes, start: nat, e: nat) returns (r: Option<bytes>)
    requires start <= e <= |s|
    ensures r == Unescape(s, start, e)
  {
    var out: bytes := [];
    var i := start;
    assert Onto(out, Unescape(s, i, e)) == Unescape(s, i, e) by { EmptyOnto(Unescape(s, i, e)); }
    while i < e
      invariant start <= i <= e && Unescape(s, start, e) == Onto(out, Unescape(s, i, e))
    {
      var c := s[i];
      if c == TILDE {
        if i + 1 >= e {
          return None;
        }
        var x := s[i + 1];
        if x != ZERO && x != ONE {
          return None;
        }
        c := if x == ZERO then TILDE else SLASH;
        i := i + 1;
      }
      OntoSnoc(out, c, Unescape(s, i + 1, e));
      out := out + [c];
      i := i + 1;
    }
    assert out + [] == out;
    r := Some(out);
  }

  lemma EmptyOnto(t: Option<bytes>)
    ensures Onto([], t) == t
  {
    if t.Some? { assert [] + t.value == t.value; }
  }

  lemma OntoSnoc(out: bytes, c: byte, t: Option<bytes>)
    ensures Onto(out + [c], t) == Onto(out, Prepend(c, t))
  {
    if t.Some? { assert out + [c] + t.value == out + ([c] + t.value); }
  }

  function Behind(ts: seq<bytes>, rest: Option<seq<bytes>>): Option<seq<bytes>> {
    match rest
    case None => None
    case Some(us) => Some(ts + us)
  }

  method ParseJsonPointer(s: bytes) returns (r: Option<seq<bytes>>)
    ensures r == ParsePointer(s)
  {
    if |s| == 0 {
      return Some([]);
    }
    if s[0] != SLASH {
      return None;
    }
    var tokens: seq<bytes> := [];
    var start := 1;
    assert forall rest: seq<bytes> :: [] + rest == rest;
    while true
      invariant start <= |s|
      invariant ParsePointer(s) == Behind(tokens, TokensFrom(s, start))
      decreases |s| - start
    {
      var slash := FindSlash(s, start);
      var t := UnescapeToken(s, start, slash);
      if t.None? {
        return None;
      }
      ghost var before := tokens;
      tokens := tokens + [t.value];
      assert forall rest: seq<bytes> :: before + ([t.value] + rest) == tokens + rest;
      if slash == |s| {
        return Some(tokens);
      }
      start := slash + 1;
    }
  }

  // ---- writing a pointer ----

  function EscapedToken(t: bytes): bytes {
    if |t| == 0 then []
    else
      (if t[0] == TILDE then [TILDE, ZERO] else if t[0] == SLASH then [TILDE, ONE] else [t[0]]) + EscapedToken(t[1..])
  }

  function FormatPointer(ts: seq<bytes>): bytes {
    if |ts| == 0 then [] else [SLASH] + EscapedToken(ts[0]) + FormatPointer(ts[1..])
  }

  lemma {:induction false} UnescapeUndone(t: bytes, s: bytes, i: nat)
    requires MatchAt(s, i, EscapedToken(t))
    ensures Unescape(s, i, i + |EscapedToken(t)|) == Some(t)
    ensures forall k :: i <= k < i + |EscapedToken(t)| ==> s[k] != SLASH
    decreases |t|
  {
    if |t| > 0 {
      var h: bytes := if t[0] == TILDE then [TILDE, ZERO] else if t[0] == SLASH then [TILDE, ONE] else [t[0]];
      var rest := EscapedToken(t[1..]);
      MatchConcat(s, i, h, rest);
      assert s[i + 0] == h[0];
      if |h| == 2 { assert s[i + 1] == h[1]; }
      UnescapeUndone(t[1..], s, i + |h|);
      assert t == [t[0]] + t[1..];
    }
  }

  lemma {:induction false} SlashIs(s: bytes, p: nat, q: nat)
    requires p <= q <= |s| && (q < |s| ==> s[q] == SLASH) && forall i :: p <= i < q ==> s[i] != SLASH
    ensures NextSlash(s, p) == q
    decreases q - p
  {
    if p < q { SlashIs(s, p + 1, q); }
  }

  lemma {:induction false} TokensUndone(ts: seq<bytes>, s: bytes, p: nat)
    requires |ts| > 0 && MatchAt(s, p, FormatPointer(ts)) && p + |FormatPointer(ts)| == |s|
    ensures TokensFrom(s, p + 1) == Some(ts)
    decreases |ts|
  {
    var t, rest := EscapedToken(ts[0]), FormatPointer(ts[1..]);
    MatchConcat(s, p, [SLASH] + t, rest);
    MatchConcat(s, p, [SLASH], t);
    UnescapeUndone(ts[0], s, p + 1);
    var e := p + 1 + |t|;
    if |ts| > 1 {
      assert s[e + 0] == rest[0];
      SlashIs(s, p + 1, e);
      TokensUndone(ts[1..], s, e);
      assert ts == [ts[0]] + ts[1..];
    } else {
      SlashIs(s, p + 1, e);
      assert ts == [ts[0]];
    }
  }

  /** Every list of reference tokens survives being written as a pointer and parsed again. */
  lemma PointerRoundTrip(ts: seq<bytes>)
    ensures ParsePointer(FormatPointer(ts)) == Some(ts)
  {
    if |ts| > 0 {
      var s := FormatPointer(ts);
      TokensUndone(ts, s, 0);
      assert s[0] == SLASH;
    }
  }

  // ---- array indexes ----

  /** parse_decimal_index: any digits (leading zeros included) whose value fits size_t. */
  function DecimalIndex(t: bytes): Option<nat> {
    if |t| > 0 && AllDigits(t) && Dec(t) <= SIZE_MAX then Some(Dec(t)) else None
  }

  method ParseDecimalIndex(t: bytes) returns (r: Option<nat>)
    ensures r == DecimalIndex(t)
  {
    if |t| == 0 {
      return None;
    }
    var value: nat := 0;
    var i := 0;
    assert t[..0] == [];
    while i < |t|
      invariant i <= |t| && AllDigits(t[..i]) && value == Dec(t[..i]) <= SIZE_MAX
    {
      if t[i] < 0x30 || t[i] > 0x39 {
        assert t[i] == t[..|t|][i];
        return None;
      }
      PrefixDec(t, i);
      var digit := t[i] - 0x30;
      if value > (SIZE_MAX - digit) / 10 {
        PrefixLeq(t, i + 1);
        return None;
      }
      value := value * 10 + digit;
      i := i + 1;
    }
    assert t[..i] == t;
    r := Some(value);
  }

  lemma PrefixDec(t: bytes, i: nat)
    requires i < |t| && AllDigits(t[..i]) && IsDigit(t[i])
    ensures AllDigits(t[..i + 1]) && Dec(t[..i + 1]) == Dec(t[..i]) * 10 + (t[i] - 0x30)
  {
    assert t[..i + 1][..i] == t[..i];
  }

  lemma {:induction false} PrefixLeq(t: bytes, i: nat)
    requires i <= |t|
    ensures AllDigits(t) ==> AllDigits(t[..i]) && Dec(t[..i]) <= Dec(t)
    decreases |t| - i
  {
    if i < |t| {
      PrefixLeq(t, i + 1);
      if AllDigits(t) {
        assert AllDigits(t[..i]);
        PrefixDec(t, i);
      }
    } else {
      assert t[..i] == t;
    }
  }

  predicate Canonical(t: bytes) { |t| > 0 && AllDigits(t) && (|t| > 1 ==> t[0] != ZERO) }

  /** strict_index tests for overflow before it looks at the digit, so it stops six short of SIZE_MAX. */
  const STRICT_LIMIT: int := 18446744073709551609

  /** strict_index: 0 | [1-9][0-9]*, up to the limit. */
  function StrictIndex(t: bytes): Option<nat> {
    if Canonical(t) && Dec(t) <= STRICT_LIMIT then Some(Dec(t)) else None
  }

  method ParseStrictIndex(t: bytes) returns (r: Option<nat>)
    ensures r == StrictIndex(t)
  {
    if |t| == 0 {
      return None;
    }
    if |t| > 1 && t[0] == ZERO {
      return None;
    }
    var value: nat := 0;
    var i := 0;
    assert t[..0] == [];
    while i < |t|
      invariant i <= |t| && AllDigits(t[..i]) && value == Dec(t[..i]) <= STRICT_LIMIT
    {
      if t[i] < 0x30 || t[i] > 0x39 {
        assert t[i] == t[..|t|][i];
        return None;
      }
      PrefixDec(t, i);
      if value > (SIZE_MAX - 9) / 10 {
        PrefixLeq(t, i + 1);
        return None;
      }
      value := value * 10 + (t[i] - 0x30);
      i := i + 1;
    }
    assert t[..i] == t;
    r := Some(value);
  }

  /** A canonical index is the decimal text of its value, so distinct tokens are distinct indexes. */
  lemma {:induction false} CanonicalText(t: bytes)
    requires Canonical(t)
    ensures DecText(Dec(t)) == t
    ensures t[0] != ZERO ==> Dec(t) > 0
    decreases |t|
  {
    var n := |t| - 1;
    assert t == t[..n] + [t[n]];
    if n == 0 {
      assert t[..n] == [];
    } else {
      CanonicalText(t[..n]);
    }
  }

  lemma CanonicalUnique(t: bytes, u: bytes)
    requires Canonical(t) && Canonical(u) && Dec(t) == Dec(u)
    ensures t == u
  {
    CanonicalText(t);
    CanonicalText(u);
  }

  /** The documented promise (reject only what overflows size_t) is kept exactly outside the last six values. */
  lemma StrictIndexExact(t: bytes)
    requires Canonical(t)
    ensures (StrictIndex(t) == (if Dec(t) <= SIZE_MAX then Some(Dec(t)) else None)) <==>
      !(STRICT_LIMIT < Dec(t) <= SIZE_MAX)
  {
  }

  /** The text of SIZE_MAX is a canonical index that strict_index refuses. */
  lemma StrictIndexRefusesMax()
    ensures var t := DecText(SIZE_MAX); Canonical(t) && Dec(t) == SIZE_MAX && StrictIndex(t).None?
  {
    DecTextRoundTrip(SIZE_MAX);
  }
}
