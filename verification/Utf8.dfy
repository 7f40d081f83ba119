/**
 UTF-8: the grammar of RFC 3629 section 4, the bounded decoder, the encoder, and the
 incremental strict checker. Shifts and masks are written as division and remainder.
 */
module Utf8 {
  import opened Core

  // ---- RFC 3629 section 4 ----

  predicate IsTail(b: byte) { 0x80 <= b <= 0xBF }

  predicate IsUtf8Two(s: bytes, p: nat) {
    p + 2 <= |s| && 0xC2 <= s[p] <= 0xDF && IsTail(s[p + 1])
  }

  predicate IsUtf8Three(s: bytes, p: nat) {
    p + 3 <= |s| && IsTail(s[p + 2]) &&
    (|| (s[p] == 0xE0 && 0xA0 <= s[p + 1] <= 0xBF)
     || (0xE1 <= s[p] <= 0xEC && IsTail(s[p + 1]))
     || (s[p] == 0xED && 0x80 <= s[p + 1] <= 0x9F)
     || (0xEE <= s[p] <= 0xEF && IsTail(s[p + 1])))
  }

  predicate IsUtf8Four(s: bytes, p: nat) {
    p + 4 <= |s| && IsTail(s[p + 2]) && IsTail(s[p + 3]) &&
    (|| (s[p] == 0xF0 && 0x90 <= s[p + 1] <= 0xBF)
     || (0xF1 <= s[p] <= 0xF3 && IsTail(s[p + 1]))
     || (s[p] == 0xF4 && 0x80 <= s[p + 1] <= 0x8F))
  }

  /** Length of the UTF8-char that starts at p, or 0 when none does. */
  function CharLen(s: bytes, p: nat): (n: nat)
    ensures n <= 4 && (n > 0 ==> p + n <= |s|)
  {
    if p < |s| && s[p] <= 0x7F then 1
    else if IsUtf8Two(s, p) then 2
    else if IsUtf8Three(s, p) then 3
    else if IsUtf8Four(s, p) then 4
    else 0
  }

  /** s[p..] is a UTF8-octets string. */
  predicate WellFormedFrom(s: bytes, p: nat)
    decreases |s| - p
  {
    p >= |s| || (CharLen(s, p) > 0 && WellFormedFrom(s, p + CharLen(s, p)))
  }

  predicate WellFormed(s: bytes) { WellFormedFrom(s, 0) }

  predicate IsScalar(cp: int) { 0 <= cp <= 0x10FFFF && !(0xD800 <= cp <= 0xDFFF) }

  // ---- decode_utf8 and encode_utf8 ----

  datatype Decoded = Bad | Good(cp: nat, len: nat)

  function Join2(b0: nat, b1: nat): nat { (b0 % 32) * 64 + b1 % 64 }
  function Join3(b0: nat, b1: nat, b2: nat): nat { (b0 % 16) * 4096 + (b1 % 64) * 64 + b2 % 64 }
  function Join4(b0: nat, b1: nat, b2: nat, b3: nat): nat {
    (b0 % 8) * 262144 + (b1 % 64) * 4096 + (b2 % 64) * 64 + b3 % 64
  }

  /** The bounded decoder: one code point at p, reading no byte at or past e. */
  function DecodeUtf8(s: bytes, p: nat, e: nat): Decoded
    requires e <= |s|
  {
    if p >= e then Bad
    else
      var b0 := s[p];
      if b0 <= 0x7F then Good(b0, 1)
      else if 0xC2 <= b0 <= 0xDF then
        if e - p < 2 || !IsTail(s[p + 1]) then Bad
        else Good(Join2(b0, s[p + 1]), 2)
      else if 0xE0 <= b0 <= 0xEF then
        if e - p < 3 then Bad
        else
          var lo := if b0 == 0xE0 then 0xA0 else 0x80;
          var hi := if b0 == 0xED then 0x9F else 0xBF;
          if s[p + 1] < lo || s[p + 1] > hi || !IsTail(s[p + 2]) then Bad
          else Good(Join3(b0, s[p + 1], s[p + 2]), 3)
      else if 0xF0 <= b0 <= 0xF4 then
        if e - p < 4 then Bad
        else
          var lo := if b0 == 0xF0 then 0x90 else 0x80;
          var hi := if b0 == 0xF4 then 0x8F else 0xBF;
          if s[p + 1] < lo || s[p + 1] > hi || !IsTail(s[p + 2]) || !IsTail(s[p + 3]) then Bad
          else Good(Join4(b0, s[p + 1], s[p + 2], s[p + 3]), 4)
      else Bad
  }

  /** cp >> 6, cp >> 12 and cp >> 18. */
  function Shr6(cp: nat): nat { cp / 64 }
  function Shr12(cp: nat): nat { cp / 64 / 64 }
  function Shr18(cp: nat): nat { cp / 64 / 64 / 64 }

  function Encode2(cp: nat): bytes { [0xC0 + Shr6(cp) % 32, 0x80 + cp % 64] }
  function Encode3(cp: nat): bytes { [0xE0 + Shr12(cp) % 16, 0x80 + Shr6(cp) % 64, 0x80 + cp % 64] }
  function Encode4(cp: nat): bytes {
    [0xF0 + Shr18(cp) % 8, 0x80 + Shr12(cp) % 64, 0x80 + Shr6(cp) % 64, 0x80 + cp % 64]
  }

  /** The encoder: None outside the Unicode range. It does encode surrogates; no caller passes one. */
  function EncodeUtf8(cp: nat): (r: Option<bytes>)
    ensures r.Some? <==> cp <= 0x10FFFF
    ensures r.Some? ==> 1 <= |r.value| <= 4
  {
    if cp <= 0x7F then Some([cp])
    else if cp <= 0x7FF then Some(Encode2(cp))
    else if cp <= 0xFFFF then Some(Encode3(cp))
    else if cp <= 0x10FFFF then Some(Encode4(cp))
    else None
  }

  lemma Low6(hi: nat, lo: nat)
    requires lo < 64
    ensures (64 * hi + lo) / 64 == hi && (64 * hi + lo) % 64 == lo
  {
  }

  lemma Two(b0: nat, b1: nat)
    requires 0xC2 <= b0 <= 0xDF && 0x80 <= b1 <= 0xBF
    ensures var v := Join2(b0, b1); v == 64 * (b0 - 0xC0) + (b1 - 0x80)
    ensures 0x80 <= Join2(b0, b1) <= 0x7FF && Encode2(Join2(b0, b1)) == [b0, b1]
  {
    Low6(b0 - 0xC0, b1 - 0x80);
  }

  lemma Three(b0: nat, b1: nat, b2: nat)
    requires 0xE0 <= b0 <= 0xEF && 0x80 <= b1 <= 0xBF && 0x80 <= b2 <= 0xBF
    ensures Join3(b0, b1, b2) == 4096 * (b0 - 0xE0) + 64 * (b1 - 0x80) + (b2 - 0x80)
    ensures Encode3(Join3(b0, b1, b2)) == [b0, b1, b2]
  {
    var mid := 64 * (b0 - 0xE0) + (b1 - 0x80);
    assert Join3(b0, b1, b2) == 64 * mid + (b2 - 0x80);
    Low6(mid, b2 - 0x80);
    Low6(b0 - 0xE0, b1 - 0x80);
  }

  lemma Four(b0: nat, b1: nat, b2: nat, b3: nat)
    requires 0xF0 <= b0 <= 0xF4 && 0x80 <= b1 <= 0xBF && 0x80 <= b2 <= 0xBF && 0x80 <= b3 <= 0xBF
    ensures Join4(b0, b1, b2, b3) == 262144 * (b0 - 0xF0) + 4096 * (b1 - 0x80) + 64 * (b2 - 0x80) + (b3 - 0x80)
    ensures Encode4(Join4(b0, b1, b2, b3)) == [b0, b1, b2, b3]
  {
    hide Join4, Encode4;
    var hi := 64 * (b0 - 0xF0) + (b1 - 0x80);
    var mid := 64 * hi + (b2 - 0x80);
    FourJoined(b0, b1, b2, b3);
    FourSplit(mid, hi, b0 - 0xF0, b1 - 0x80, b2 - 0x80, b3 - 0x80);
  }

  lemma FourJoined(b0: nat, b1: nat, b2: nat, b3: nat)
    requires 0xF0 <= b0 <= 0xF4 && 0x80 <= b1 <= 0xBF && 0x80 <= b2 <= 0xBF && 0x80 <= b3 <= 0xBF
    ensures Join4(b0, b1, b2, b3) == 262144 * (b0 - 0xF0) + 4096 * (b1 - 0x80) + 64 * (b2 - 0x80) + (b3 - 0x80)
  {
    assert b0 % 8 == b0 - 0xF0;
  }

  lemma FourSplit(mid: nat, hi: nat, a: nat, b: nat, c: nat, d: nat)
    requires a < 5 && b < 64 && c < 64 && d < 64 && hi == 64 * a + b && mid == 64 * hi + c
    ensures Encode4(64 * mid + d) == [0xF0 + a, 0x80 + b, 0x80 + c, 0x80 + d]
  {
    Low6(mid, d);
    Low6(hi, c);
    Low6(a, b);
  }

  lemma TwoCoded(b0: byte, b1: byte)
    requires 0xC2 <= b0 <= 0xDF && IsTail(b1)
    ensures var cp := Join2(b0, b1); IsScalar(cp) && EncodeUtf8(cp) == Some([b0, b1])
  {
    hide Join2, Encode2, Encode3, Encode4;
    Two(b0, b1);
  }

  lemma ThreeCoded(b0: byte, b1: byte, b2: byte)
    requires 0xE0 <= b0 <= 0xEF && IsTail(b1) && IsTail(b2) && SecondFits(b0, b1)
    ensures var cp := Join3(b0, b1, b2); IsScalar(cp) && EncodeUtf8(cp) == Some([b0, b1, b2])
  {
    hide Join3, Encode2, Encode3, Encode4;
    Three(b0, b1, b2);
  }

  lemma FourCoded(b0: byte, b1: byte, b2: byte, b3: byte)
    requires 0xF0 <= b0 <= 0xF4 && IsTail(b1) && IsTail(b2) && IsTail(b3)
    requires (b0 == 0xF0 ==> b1 >= 0x90) && (b0 == 0xF4 ==> b1 <= 0x8F)
    ensures var cp := Join4(b0, b1, b2, b3); IsScalar(cp) && EncodeUtf8(cp) == Some([b0, b1, b2, b3])
  {
    hide Join4, Encode2, Encode3, Encode4;
    Four(b0, b1, b2, b3);
  }

  /** The decoder accepts exactly the UTF8-chars, with their length, and yields a scalar value. */
  lemma DecodeMatchesGrammar(s: bytes, p: nat)
    ensures var d := DecodeUtf8(s, p, |s|);
      && (d.Good? <==> CharLen(s, p) > 0)
      && (d.Good? ==> d.len == CharLen(s, p) && IsScalar(d.cp) && EncodeUtf8(d.cp) == Some(s[p..p + d.len]))
  {
    hide Join2, Join3, Join4, EncodeUtf8;
    if IsUtf8Two(s, p) {
      TwoCoded(s[p], s[p + 1]);
      assert s[p..p + 2] == [s[p], s[p + 1]];
    } else if IsUtf8Three(s, p) {
      ThreeCoded(s[p], s[p + 1], s[p + 2]);
      assert s[p..p + 3] == [s[p], s[p + 1], s[p + 2]];
    } else if IsUtf8Four(s, p) {
      FourCoded(s[p], s[p + 1], s[p + 2], s[p + 3]);
      assert s[p..p + 4] == [s[p], s[p + 1], s[p + 2], s[p + 3]];
    } else if p < |s| && s[p] <= 0x7F {
      OneCoded(s[p]);
      assert s[p..p + 1] == [s[p]];
    }
  }

  lemma OneCoded(b: byte)
    requires b <= 0x7F
    ensures EncodeUtf8(b) == Some([b])
  {
  }

  /** Encoding what was decoded gives back the bytes read. */
  lemma EncodeUndoesDecode(s: bytes, p: nat)
    requires CharLen(s, p) > 0
    ensures var d := DecodeUtf8(s, p, |s|);
      d.Good? && EncodeUtf8(d.cp) == Some(s[p..p + CharLen(s, p)])
  {
    DecodeMatchesGrammar(s, p);
  }

  lemma Sixes(cp: nat)
    ensures cp == 64 * Shr6(cp) + cp % 64
    ensures Shr6(cp) == 64 * Shr12(cp) + Shr6(cp) % 64
    ensures Shr12(cp) == 64 * Shr18(cp) + Shr12(cp) % 64
  {
  }

  lemma DecodeTwo(cp: nat, b0: byte, b1: byte)
    requires 0x80 <= cp <= 0x7FF
    requires b0 == 0xC0 + Shr6(cp) && b1 == 0x80 + cp % 64
    ensures Encode2(cp) == [b0, b1] && DecodeUtf8([b0, b1], 0, 2) == Good(cp, 2)
  {
    Sixes(cp);
    Two(b0, b1);
  }

  lemma DecodeThree(cp: nat, b0: byte, b1: byte, b2: byte)
    requires 0x800 <= cp <= 0xFFFF && IsScalar(cp)
    requires b0 == 0xE0 + Shr12(cp) && b1 == 0x80 + Shr6(cp) % 64 && b2 == 0x80 + cp % 64
    ensures Encode3(cp) == [b0, b1, b2] && DecodeUtf8([b0, b1, b2], 0, 3) == Good(cp, 3)
  {
    assert Encode3(cp) == [b0, b1, b2] && 0xE0 <= b0 <= 0xEF && IsTail(b1) && IsTail(b2) && SecondFits(b0, b1) by {
      Sixes(cp);
    }
    assert Join3(b0, b1, b2) == cp by {
      Sixes(cp);
      Three(b0, b1, b2);
    }
  }

  predicate SecondFits(b0: byte, b1: byte) {
    (b0 == 0xE0 ==> b1 >= 0xA0) && (b0 == 0xED ==> b1 <= 0x9F)
  }

  lemma DecodeFour(cp: nat, b0: byte, b1: byte, b2: byte, b3: byte)
    requires 0x10000 <= cp <= 0x10FFFF
    requires b0 == 0xF0 + Shr18(cp) && b1 == 0x80 + Shr12(cp) % 64 && b2 == 0x80 + Shr6(cp) % 64 && b3 == 0x80 + cp % 64
    ensures Encode4(cp) == [b0, b1, b2, b3] && DecodeUtf8([b0, b1, b2, b3], 0, 4) == Good(cp, 4)
  {
    Sixes(cp);
    Four(b0, b1, b2, b3);
  }

  /** Decoding an encoded scalar value gives it back, consuming exactly the encoding. */
  lemma DecodeUndoesEncode(cp: nat)
    requires IsScalar(cp)
    ensures var t := EncodeUtf8(cp).value;
      DecodeUtf8(t, 0, |t|) == Good(cp, |t|) && CharLen(t, 0) == |t|
  {
    DecodeMatchesGrammar(EncodeUtf8(cp).value, 0);
    Sixes(cp);
    if 0x80 <= cp <= 0x7FF {
      DecodeTwo(cp, 0xC0 + Shr6(cp), 0x80 + cp % 64);
    } else if 0x800 <= cp <= 0xFFFF {
      DecodeThree(cp, 0xE0 + Shr12(cp), 0x80 + Shr6(cp) % 64, 0x80 + cp % 64);
    } else if 0x10000 <= cp {
      DecodeFour(cp, 0xF0 + Shr18(cp), 0x80 + Shr12(cp) % 64, 0x80 + Shr6(cp) % 64, 0x80 + cp % 64);
    }
  }

  lemma {:induction false} WellFormedShift(a: bytes, s: bytes, p: nat, q: nat)
    requires p <= |a| && q <= |s| && a[p..] == s[q..]
    ensures CharLen(a, p) == CharLen(s, q)
    ensures WellFormedFrom(a, p) == WellFormedFrom(s, q)
    decreases |a| - p
  {
    CharLenShift(a, s, p, q);
    var n := CharLen(a, p);
    if p < |a| && n > 0 {
      assert a[p..][n..] == a[p + n..] && s[q..][n..] == s[q + n..];
      WellFormedShift(a, s, p + n, q + n);
    }
  }

  lemma CharLenShift(a: bytes, s: bytes, p: nat, q: nat)
    requires p <= |a| && q <= |s| && a[p..] == s[q..]
    ensures CharLen(a, p) == CharLen(s, q)
  {
    var u := a[p..];
    forall i | 0 <= i < |u| ensures u[i] == a[p + i] == s[q + i] {
      assert s[q..][i] == s[q + i];
    }
  }

  // ---- the incremental checker ----

  /** The checker's fields. `need` continuation bytes are still expected after `lead`. */
  datatype Checker = Checker(need: nat, c1lo: nat, c1hi: nat, lead: nat, leadCode: Option<Code>, code: Option<Code>,
    err: nat)

  const Fresh: Checker := Checker(0, 0, 0, 0, None, None, 0)

  function LeadOf(ck: Checker, need: nat, lo: nat, hi: nat, c: Option<Code>, pos: nat): Checker {
    ck.(need := need, c1lo := lo, c1hi := hi, leadCode := c, lead := pos)
  }

  function SetFail(ck: Checker, c: Option<Code>, pos: nat): Checker {
    if ck.code.Some? then ck else ck.(code := c, err := pos)
  }

  function FeedLead(ck: Checker, b: byte, pos: nat): Checker {
    if b <= 0x7F then ck
    else if 0xC2 <= b <= 0xDF then LeadOf(ck, 1, 0x80, 0xBF, None, pos)
    else if b == 0xE0 then LeadOf(ck, 2, 0xA0, 0xBF, Some(Utf8Overlong), pos)
    else if b == 0xED then LeadOf(ck, 2, 0x80, 0x9F, Some(Utf8Surrogate), pos)
    else if 0xE1 <= b <= 0xEF then LeadOf(ck, 2, 0x80, 0xBF, None, pos)
    else if b == 0xF0 then LeadOf(ck, 3, 0x90, 0xBF, Some(Utf8Overlong), pos)
    else if b == 0xF4 then LeadOf(ck, 3, 0x80, 0x8F, Some(Utf8ExceedsMax), pos)
    else if 0xF1 <= b <= 0xF3 then LeadOf(ck, 3, 0x80, 0xBF, None, pos)
    else if b == 0xC0 || b == 0xC1 then SetFail(ck, Some(Utf8Overlong), pos)
    else SetFail(ck, Some(Utf8InvalidLead), pos)
  }

  /** One byte at an input position. A failed checker ignores everything. */
  function Feed(ck: Checker, b: byte, pos: nat): Checker {
    if ck.code.Some? then ck
    else if ck.need == 0 then FeedLead(ck, b, pos)
    else if b < 0x20 then ck
    else if pos == ck.lead + 1 && IsTail(b) && (b < ck.c1lo || b > ck.c1hi) then SetFail(ck, ck.leadCode, ck.lead)
    else if !IsTail(b) then SetFail(ck, Some(Utf8InvalidContinuation), pos)
    else ck.(need := ck.need - 1)
  }

  function End(ck: Checker): Checker {
    if ck.need != 0 && ck.code.None? then SetFail(ck, Some(Utf8Truncated), ck.lead) else ck
  }

  /** Feed s[p..q] in order, each byte at its own position. */
  function FeedRange(ck: Checker, s: bytes, p: nat, q: nat): Checker
    requires q <= |s|
    decreases q - p
  {
    if p >= q then ck else FeedRange(Feed(ck, s[p], p), s, p + 1, q)
  }

  /** The mutable checker of the parser and the event reader. */
  class Utf8Checker {
    var need: nat
    var c1lo: nat
    var c1hi: nat
    var lead: nat
    var leadCode: Option<Code>
    var code: Option<Code>
    var err: nat

    function State(): Checker
      reads this
    {
      Checker(need, c1lo, c1hi, lead, leadCode, code, err)
    }

    constructor ()
      ensures State() == Fresh
    {
      need, c1lo, c1hi, lead, leadCode, code, err := 0, 0, 0, 0, None, None, 0;
    }

    method Set(c: Option<Code>, pos: nat)
      modifies this
      ensures State() == SetFail(old(State()), c, pos)
    {
      if code.None? {
        code := c;
        err := pos;
      }
    }

    method OpenSequence(n: nat, lo: nat, hi: nat, c: Option<Code>, pos: nat)
      modifies this
      ensures State() == LeadOf(old(State()), n, lo, hi, c, pos)
    {
      need := n;
      c1lo := lo;
      c1hi := hi;
      leadCode := c;
      lead := pos;
    }

    method FeedByte(b: byte, pos: nat)
      modifies this
      ensures State() == Feed(old(State()), b, pos)
    {
      if code.Some? {
        return;
      }
      if need == 0 {
        if b <= 0x7F {
        } else if 0xC2 <= b <= 0xDF {
          OpenSequence(1, 0x80, 0xBF, None, pos);
        } else if b == 0xE0 {
          OpenSequence(2, 0xA0, 0xBF, Some(Utf8Overlong), pos);
        } else if b == 0xED {
          OpenSequence(2, 0x80, 0x9F, Some(Utf8Surrogate), pos);
        } else if 0xE1 <= b <= 0xEC || b == 0xEE || b == 0xEF {
          OpenSequence(2, 0x80, 0xBF, None, pos);
        } else if b == 0xF0 {
          OpenSequence(3, 0x90, 0xBF, Some(Utf8Overlong), pos);
        } else if b == 0xF4 {
          OpenSequence(3, 0x80, 0x8F, Some(Utf8ExceedsMax), pos);
        } else if 0xF1 <= b <= 0xF3 {
          OpenSequence(3, 0x80, 0xBF, None, pos);
        } else if b == 0xC0 || b == 0xC1 {
          Set(Some(Utf8Overlong), pos);
        } else {
          Set(Some(Utf8InvalidLead), pos);
        }
        return;
      }
      if b < 0x20 {
        return;
      }
      if pos == lead + 1 {
        if b < 0x80 || b > 0xBF {
          Set(Some(Utf8InvalidContinuation), pos);
        } else if b < c1lo || b > c1hi {
          Set(leadCode, lead);
        } else {
          need := need - 1;
        }
        return;
      }
      if b < 0x80 || b > 0xBF {
        Set(Some(Utf8InvalidContinuation), pos);
        return;
      }
      need := need - 1;
    }

    method Finish()
      modifies this
      ensures State() == End(old(State()))
    {
      if need != 0 && code.None? {
        Set(Some(Utf8Truncated), lead);
      }
    }

    /** Feed a raw run; it stops at the first recorded failure. */
    method FeedRun(s: bytes, p: nat, q: nat)
      requires p <= q <= |s|
      modifies this
      ensures State() == FeedRange(old(State()), s, p, q)
    {
      var i := p;
      while i < q && code.None?
        invariant p <= i <= q
        invariant FeedRange(old(State()), s, p, q) == FeedRange(State(), s, i, q)
      {
        FeedByte(s[i], i);
        i := i + 1;
      }
      FeedFailed(State(), s, i, q);
    }
  }

  lemma {:induction false} FeedFailed(ck: Checker, s: bytes, p: nat, q: nat)
    requires q <= |s|
    ensures ck.code.Some? ==> FeedRange(ck, s, p, q) == ck
    decreases q - p
  {
    if p < q && ck.code.Some? { FeedFailed(ck, s, p + 1, q); }
  }

  /** Between two characters: nothing expected, nothing failed. */
  predicate Clean(ck: Checker) { ck.need == 0 && ck.code.None? }

  ghost predicate NoControls(s: bytes, p: nat, q: nat)
    requires q <= |s|
  {
    forall i :: p <= i < q ==> s[i] >= 0x20
  }

  lemma FeedChar(ck: Checker, s: bytes, p: nat)
    requires Clean(ck) && CharLen(s, p) > 0
    ensures Clean(FeedRange(ck, s, p, p + CharLen(s, p)))
  {
    var n := CharLen(s, p);
    var c1 := Feed(ck, s[p], p);
    FeedStep(ck, s, p, p + n);
    if n > 1 {
      var c2 := Feed(c1, s[p + 1], p + 1);
      FeedStep(c1, s, p + 1, p + n);
      assert c2 == c1.(need := n - 2);
      if n > 2 {
        var c3 := Feed(c2, s[p + 2], p + 2);
        FeedStep(c2, s, p + 2, p + n);
        assert c3 == c1.(need := n - 3);
        if n > 3 {
          FeedStep(c3, s, p + 3, p + n);
          assert Feed(c3, s[p + 3], p + 3) == c1.(need := n - 4);
        }
      }
    }
  }

  lemma FeedStep(ck: Checker, s: bytes, p: nat, q: nat)
    requires p < q <= |s|
    ensures FeedRange(ck, s, p, q) == FeedRange(Feed(ck, s[p], p), s, p + 1, q)
    ensures FeedRange(Feed(ck, s[p], p), s, p + 1, p + 1) == Feed(ck, s[p], p)
  {
  }

  /** Without the side condition the checker is too lenient: a control byte in a continuation slot is skipped. */
  lemma CheckerSkipsControls()
    ensures var s: bytes := [0xE0, 0x01, 0x80, 0x80];
      End(FeedRange(Fresh, s, 0, |s|)).code.None? && !WellFormed(s)
  {
    var s: bytes := [0xE0, 0x01, 0x80, 0x80];
    var c1 := Feed(Fresh, s[0], 0);
    var c2 := Feed(c1, s[1], 1);
    var c3 := Feed(c2, s[2], 2);
    var c4 := Feed(c3, s[3], 3);
    assert FeedRange(Fresh, s, 0, 4) == FeedRange(c1, s, 1, 4);
    assert FeedRange(c1, s, 1, 4) == FeedRange(c2, s, 2, 4);
    assert FeedRange(c2, s, 2, 4) == FeedRange(c3, s, 3, 4);
  }

  /** check_utf8_strict over s[p..q]: the first failure with its position, or None. */
  function CheckStrict(s: bytes, p: nat, q: nat): (r: Option<Error>)
    requires p <= q <= |s|
  {
    Verdict(End(FeedRange(Fresh, s, p, q)))
  }

  function Verdict(ck: Checker): Option<Error> {
    match ck.code
    case Some(c) => Some(Positioned(c, ck.err))
    case None => None
  }

  /** Repeated decode_utf8 reaches the end of the string. */
  predicate DecodesThrough(s: bytes, p: nat)
    decreases |s| - p
  {
    p >= |s| ||
    (var d := DecodeUtf8(s, p, |s|);
     d.Good? && d.len > 0 && DecodesThrough(s, p + d.len))
  }

  lemma {:induction false} DecoderIsGrammar(s: bytes, p: nat)
    ensures DecodesThrough(s, p) <==> WellFormedFrom(s, p)
    decreases |s| - p
  {
    DecodeMatchesGrammar(s, p);
    if p < |s| && CharLen(s, p) > 0 { DecoderIsGrammar(s, p + CharLen(s, p)); }
  }
}
