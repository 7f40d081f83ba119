/**
 The JSON5 trivia skipper and the identifier-key scanner as loops over the live buffer, and the fact that
 they depend on the bytes between the cursor and the end only.
 */
module Json5Scan {
  import opened Core
  import opened Utf8
  import opened Strings
  import opened InPlace
  import opened Json5Lexer

  // ---- trivia ----

  lemma {:induction false} LineEndSame(s: bytes, t: bytes, p: nat, e: nat, q: nat)
    requires SameTo(s, t, p, e) && p <= q
    ensures LineEnd(s, q, e) == LineEnd(t, q, e)
    decreases e - q
  {
    if !LineEndsAt(s, q, e) { LineEndSame(s, t, p, e, q + 1); }
  }

  lemma {:induction false} BlockEndSame(s: bytes, t: bytes, p: nat, e: nat, q: nat)
    requires SameTo(s, t, p, e) && p <= q
    ensures BlockEnd(s, q, e) == BlockEnd(t, q, e)
    decreases e - q
  {
    if q + 1 < e && !(s[q] == STAR && s[q + 1] == SLASH) { BlockEndSame(s, t, p, e, q + 1); }
  }

  lemma DecodeSame(s: bytes, t: bytes, p: nat, e: nat, q: nat)
    requires SameTo(s, t, p, e) && p <= q
    ensures DecodeUtf8(s, q, e) == DecodeUtf8(t, q, e)
  {
    if q < e { assert s[q] == t[q]; }
    if q + 1 < e { assert s[q + 1] == t[q + 1]; }
    if q + 2 < e { assert s[q + 2] == t[q + 2]; }
    if q + 3 < e { assert s[q + 3] == t[q + 3]; }
  }

  lemma {:induction false} TriviaSame(s: bytes, t: bytes, p: nat, e: nat, q: nat)
    requires SameTo(s, t, p, e) && p <= q
    ensures Trivia(s, q, e) == Trivia(t, q, e)
    decreases e - q
  {
    hide DecodeUtf8, LineEnd, BlockEnd, IsWs5, IsWs5Unicode;
    DecodeSame(s, t, p, e, q);
    LineEndSame(s, t, p, e, q + 2);
    BlockEndSame(s, t, p, e, q + 2);
    if q < e {
      assert s[q] == t[q];
      if IsWs5(s[q]) {
        TriviaSame(s, t, p, e, q + 1);
      } else if WideWs(s, q, e) > 0 {
        TriviaSame(s, t, p, e, q + WideWs(s, q, e));
      } else if q + 1 < e && s[q] == SLASH {
        assert s[q + 1] == t[q + 1];
        if s[q + 1] == SLASH {
          TriviaSame(s, t, p, e, LineEnd(s, q + 2, e));
        } else if s[q + 1] == STAR && BlockEnd(s, q + 2, e) + 1 < e {
          TriviaSame(s, t, p, e, BlockEnd(s, q + 2, e) + 2);
        }
      }
    }
  }

  method SkipLine(s: bytes, start: nat, e: nat) returns (p: nat)
    requires e <= |s|
    ensures p == LineEnd(s, start, e)
  {
    p := start;
    while p < e && s[p] != LF && s[p] != CR
      invariant p >= start && LineEnd(s, start, e) == LineEnd(s, p, e)
    {
      if p + 2 < e && s[p] == 0xE2 && s[p + 1] == 0x80 && (s[p + 2] == 0xA8 || s[p + 2] == 0xA9) {
        return;
      }
      p := p + 1;
    }
  }

  method SkipBlock(s: bytes, start: nat, e: nat) returns (p: nat)
    requires e <= |s|
    ensures p == BlockEnd(s, start, e)
  {
    p := start;
    while p + 1 < e && !(s[p] == STAR && s[p + 1] == SLASH)
      invariant p >= start && BlockEnd(s, start, e) == BlockEnd(s, p, e)
    {
      p := p + 1;
    }
  }

  /**
   skip_json5_trivia. `unclosed` reports an unterminated block comment; the cursor then stops where the scan gave up.
   */
  method SkipTrivia(s: bytes, start: nat, e: nat) returns (p: nat, unclosed: bool)
    requires e <= |s|
    ensures p >= start && (start <= |s| ==> p <= |s|)
    ensures Trivia(s, start, e) == if unclosed then Fail(Positioned(UnexpectedEndOfInput, e)) else Ok((), p)
  {
    hide LineEnd, BlockEnd, DecodeUtf8, IsWs5Unicode;
    p := start;
    while true
      invariant p >= start && (start <= |s| ==> p <= |s|)
      invariant Trivia(s, start, e) == Trivia(s, p, e)
      decreases e - p
    {
      while p < e && IsWs5(s[p])
        invariant p >= start && (start <= |s| ==> p <= |s|)
        invariant Trivia(s, start, e) == Trivia(s, p, e)
        decreases e - p
      {
        p := p + 1;
      }
      var wide := WideWs(s, p, e);
      if wide > 0 {
        p := p + wide;
        continue;
      }
      if p + 1 < e && s[p] == SLASH && s[p + 1] == SLASH {
        p := SkipLine(s, p + 2, e);
        continue;
      }
      if p + 1 < e && s[p] == SLASH && s[p + 1] == STAR {
        var q := SkipBlock(s, p + 2, e);
        if q + 1 >= e {
          return q, true;
        }
        p := q + 2;
        continue;
      }
      return p, false;
    }
  }

  // ---- identifier keys ----

  lemma HexBoundedSame(s: bytes, t: bytes, p: nat, e: nat, q: nat)
    requires SameTo(s, t, p, e) && p <= q
    ensures Hex4Bounded(s, q, e) == Hex4Bounded(t, q, e)
  {
    if q < e { assert s[q] == t[q]; }
    if q + 1 < e { assert s[q + 1] == t[q + 1]; }
    if q + 2 < e { assert s[q + 2] == t[q + 2]; }
    if q + 3 < e { assert s[q + 3] == t[q + 3]; }
  }

  lemma IdentUnitSame(s: bytes, t: bytes, p: nat, e: nat)
    requires SameTo(s, t, p, e) && p < e
    ensures IdentUnit(s, p, e) == IdentUnit(t, p, e)
  {
    hide DecodeUtf8, Hex4Bounded, JoinPair, Hex4;
    DecodeSame(s, t, p, e, p);
    HexBoundedSame(s, t, p, e, p + 2);
    HexBoundedSame(s, t, p, e, p + 8);
    assert s[p] == t[p];
    if p + 1 < e { assert s[p + 1] == t[p + 1]; }
    if p + 7 < e { assert s[p + 6] == t[p + 6] && s[p + 7] == t[p + 7]; }
  }

  /** The buffer as a value agrees with the text on everything unread. */
  lemma ViewSame(mem: array<byte>, base: nat, s: bytes, p: nat, e: nat, view: bytes)
    requires Unread(mem, base, s, PADDING, p) && view == mem[base..base + |s|] && e <= |s|
    ensures SameTo(view, s, p, e)
  {
    forall i | p <= i < e ensures view[i] == s[i] {
      assert view[i] == mem[base + i];
    }
  }

  /**
   parse_identifier_key. An escaped spelling is longer than its encoding, so once an escape has been seen
   the name is rewritten over its own source.
   */
  method ParseIdentifierKey(mem: array<byte>, base: nat, start: nat, e: nat, size: nat, cfg: Config, ghost s: bytes)
      returns (r: Parsed<nat>)
    requires start <= e <= |s| == size && Unread(mem, base, s, PADDING, start)
    modifies mem
    ensures match ParseIdentKey(cfg, s, start, e)
      case Fail(x) => r == Fail(x)
      case Ok(t, n) =>
        && r.Ok? && r.next == n && start <= r.value <= n
        && mem[base + start..base + r.value] == t
        && Unread(mem, base, s, PADDING, n)
    ensures OnlyWrote(mem, base, start, |s|)
  {
    var dst, curr, first, decoding := start, start, true, false;
    assert mem[base + start..base + dst] == [];
    ghost var spec := IdentRun(cfg, s, start, e, true, []);
    while curr < e
      invariant start <= dst <= curr <= e && (!decoding ==> dst == curr) && first == (curr == start)
      invariant Unread(mem, base, s, PADDING, curr)
      invariant spec == IdentRun(cfg, s, curr, e, first, mem[base + start..base + dst])
      invariant OnlyWrote(mem, base, start, |s|)
      decreases e - curr
    {
      var more, w, n, d := IdentStep(mem, base, start, dst, curr, e, size, first, decoding, cfg, s);
      if !more {
        break;
      }
      dst, curr, first, decoding := w, n, false, d;
    }
    if curr == start {
      return Fail(Positioned(ExpectedStringKey, curr));
    }
    return Ok(dst, curr);
  }

  /** What the unit at the cursor is; raw bytes of a plain unit are still in place. */
  method PeekIdent(mem: array<byte>, base: nat, curr: nat, e: nat, size: nat, ghost s: bytes)
      returns (u: IdentChar, raw: bytes)
    requires curr < e <= |s| == size && Unread(mem, base, s, PADDING, curr)
    ensures u == IdentUnit(s, curr, e)
    ensures u.IdentAt? ==> raw == s[curr..u.next] == mem[base + curr..base + u.next]
    ensures u.IdentAt? && u.escaped ==> EncodeUtf8(u.cp).Some? && |EncodeUtf8(u.cp).value| <= 4 < u.next - curr
  {
    var view := mem[base..base + size];
    ViewSame(mem, base, s, curr, e, view);
    IdentUnitSame(view, s, curr, e);
    u := IdentUnit(view, curr, e);
    raw := [];
    if u.IdentAt? {
      SliceSame(view, s, curr, e, curr, u.next);
      raw := view[curr..u.next];
      if u.escaped { IdentEscapeLength(s, curr, e); }
    }
  }

  method IdentStep(mem: array<byte>, base: nat, ghost lo: nat, dst: nat, curr: nat, e: nat, size: nat, first: bool,
      decoding: bool,
                   cfg: Config, ghost s: bytes) returns (more: bool, dst': nat, next: nat, decoding': bool)
    requires lo <= dst <= curr < e <= |s| == size && (!decoding ==> dst == curr)
    requires Unread(mem, base, s, PADDING, curr)
    modifies mem
    ensures !more ==>
      old(IdentRun(cfg, s, curr, e, first, mem[base + lo..base + dst])) == (old(mem[base + lo..base + dst]), curr)
                      && mem[..] == old(mem[..])
    ensures more ==> curr < next <= e && dst <= dst' <= next && (!decoding' ==> dst' == next)
                     && Unread(mem, base, s, PADDING, next)
                     && old(IdentRun(cfg, s, curr, e, first, mem[base + lo..base + dst]))
                        == IdentRun(cfg, s, next, e, false, mem[base + lo..base + dst'])
    ensures OnlyWrote(mem, base, dst, |s|)
  {
    hide IdentUnit, EncodeUtf8;
    more, dst', next, decoding' := false, dst, curr, decoding;
    var u, raw := PeekIdent(mem, base, curr, e, size, s);
    if u.NoIdent? || !(if first then cfg.identStart(u.cp) else cfg.identPart(u.cp)) {
      return;
    }
    more, next := true, u.next;
    if u.escaped {
      var t := EncodeUtf8(u.cp).value;
      Append(mem, base, lo, dst, t);
      dst', decoding' := dst + |t|, true;
    } else {
      dst' := dst + |raw|;
      if decoding {
        Append(mem, base, lo, dst, raw);
      } else {
        assert mem[base + lo..base + next] == mem[base + lo..base + dst] + mem[base + curr..base + next];
      }
    }
  }

  lemma IdentEscapeLength(s: bytes, p: nat, e: nat)
    requires p < e <= |s| && IdentUnit(s, p, e).IdentAt? && IdentUnit(s, p, e).escaped
    ensures var u := IdentUnit(s, p, e); |EncodeUtf8(u.cp).value| <= 4 < u.next - p
  {
  }
}
