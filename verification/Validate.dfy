/**
 The compile-time validator: a third recogniser with its own string, literal and container scanners. `None` is a
 refusal, `Some(q)` an accepted text that ends at q.
 */
module Validate {
  import opened Core
  import opened Grammar
  import opened Strings
  import opened Json5Lexer

  // ---- strings ----

  function VHex4(s: bytes, p: nat): (r: Option<nat>)
    ensures r.Some? ==> p + 4 <= |s|
  {
    if p + 4 <= |s| && HexValue(s[p]) >= 0 && HexValue(s[p + 1]) >= 0 && HexValue(s[p + 2]) >= 0 &&
      HexValue(s[p + 3]) >= 0
    then Some(((HexValue(s[p]) * 16 + HexValue(s[p + 1])) * 16 + HexValue(s[p + 2])) * 16 + HexValue(s[p + 3]))
    else None
  }

  predicate IsShortEscape(c: byte) { ShortEscape(c) != 0 }

  /** The escape whose backslash is at p. */
  function VEscape(s: bytes, p: nat): (r: Option<nat>)
    ensures r.Some? ==> p + 2 <= r.value <= |s|
  {
    if p + 1 >= |s| then None
    else if s[p + 1] == LOWER_U then
      match VHex4(s, p + 2)
      case None => None
      case Some(cp) =>
        if IsHighSurrogate(cp) then
          if p + 12 > |s| || s[p + 6] != BACKSLASH || s[p + 7] != LOWER_U then None
          else
            (match VHex4(s, p + 8)
             case None => None
             case Some(lo) => if IsLowSurrogate(lo) then Some(p + 12) else None)
        else if IsLowSurrogate(cp) then None
        else Some(p + 6)
    else if IsShortEscape(s[p + 1]) then Some(p + 2)
    else None
  }

  /** scan_string past the opening quote. */
  function VString(s: bytes, p: nat): (r: Option<nat>)
    ensures r.Some? ==> p < r.value <= |s|
    decreases |s| - p
  {
    if p >= |s| then None
    else if s[p] == QUOTE then Some(p + 1)
    else if s[p] == BACKSLASH then
      match VEscape(s, p)
      case None => None
      case Some(q) => VString(s, q)
    else if s[p] < 0x20 then None
    else VString(s, p + 1)
  }

  // ---- values ----

  function VLiteral(s: bytes, p: nat, lit: bytes): Option<nat> {
    if LiteralAt(s, p, |s|, lit) then Some(p + |lit|) else None
  }

  function VNumber(s: bytes, p: nat): (r: Option<nat>)
    ensures r.Some? ==> p < r.value <= |s|
  {
    var sc := Scan(s, p, |s|);
    if sc.err.NumOk? then
      ScanShape(s, p, |s|);
      Some(sc.next)
    else None
  }

  function VValue(s: bytes, p: nat): (r: Option<nat>)
    requires p <= |s|
    ensures r.Some? ==> p < r.value <= |s|
    decreases |s| - p, 3
  {
    var q := SkipWs(s, p);
    if q == |s| then None
    else
      var c := s[q];
      if c == 0x74 then VLiteral(s, q, TRUE)
      else if c == 0x66 then VLiteral(s, q, FALSE)
      else if c == 0x6E then VLiteral(s, q, NULL)
      else if c == QUOTE then VString(s, q + 1)
      else if c == LBRACKET then VArray(s, q + 1)
      else if c == LBRACE then VObject(s, q + 1)
      else VNumber(s, q)
  }

  /** An array whose '[' was consumed. */
  function VArray(s: bytes, p: nat): (r: Option<nat>)
    requires p <= |s|
    ensures r.Some? ==> p < r.value <= |s|
    decreases |s| - p, 5
  {
    var q := SkipWs(s, p);
    if q < |s| && s[q] == RBRACKET then Some(q + 1) else VElements(s, q)
  }

  function VElements(s: bytes, p: nat): (r: Option<nat>)
    requires p <= |s|
    ensures r.Some? ==> p < r.value <= |s|
    decreases |s| - p, 4
  {
    match VValue(s, p)
    case None => None
    case Some(n) =>
      var q := SkipWs(s, n);
      if q == |s| then None
      else if s[q] == RBRACKET then Some(q + 1)
      else if s[q] != COMMA then None
      else VElements(s, SkipWs(s, q + 1))
  }

  /** An object whose '{' was consumed. */
  function VObject(s: bytes, p: nat): (r: Option<nat>)
    requires p <= |s|
    ensures r.Some? ==> p < r.value <= |s|
    decreases |s| - p, 5
  {
    var q := SkipWs(s, p);
    if q < |s| && s[q] == RBRACE then Some(q + 1) else VMembers(s, q)
  }

  /** A key, its colon, and where the value starts. */
  function VKey(s: bytes, p: nat): (r: Option<nat>)
    requires p <= |s|
    ensures r.Some? ==> p < r.value <= |s|
  {
    var k := SkipWs(s, p);
    if k == |s| || s[k] != QUOTE then None
    else
      match VString(s, k + 1)
      case None => None
      case Some(n) =>
        var c := SkipWs(s, n);
        if c == |s| || s[c] != COLON then None else Some(c + 1)
  }

  function VMembers(s: bytes, p: nat): (r: Option<nat>)
    requires p <= |s|
    ensures r.Some? ==> p < r.value <= |s|
    decreases |s| - p, 4
  {
    match VKey(s, p)
    case None => None
    case Some(c) =>
      match VValue(s, c)
      case None => None
      case Some(n) =>
        var q := SkipWs(s, n);
        if q == |s| then None
        else if s[q] == RBRACE then Some(q + 1)
        else if s[q] != COMMA then None
        else VMembers(s, q + 1)
  }

  /** The verdict of ConstJson::parse. */
  predicate ValidText(s: bytes) {
    match VValue(s, 0)
    case None => false
    case Some(n) => SkipWs(s, n) == |s|
  }

  // ---- the scanners, step by step ----

  method ScanHex4(s: bytes, start: nat) returns (r: Option<nat>)
    ensures r == VHex4(s, start)
  {
    if start + 4 > |s| {
      return None;
    }
    var cp: nat := 0;
    var i := 0;
    ghost var a, b, c := HexValue(s[start]), HexValue(s[start + 1]), HexValue(s[start + 2]);
    while i < 4
      invariant i <= 4 && forall k :: start <= k < start + i ==> HexValue(s[k]) >= 0
      invariant i == 0 ==> cp == 0
      invariant i == 1 ==> cp == a
      invariant i == 2 ==> cp == a * 16 + b
      invariant i == 3 ==> cp == (a * 16 + b) * 16 + c
      invariant i == 4 ==> VHex4(s, start) == Some(cp)
    {
      var d := HexValue(s[start + i]);
      if d < 0 {
        return None;
      }
      cp := cp * 16 + d;
      i := i + 1;
    }
    return Some(cp);
  }

  method ScanEscape(s: bytes, p: nat) returns (r: Option<nat>)
    ensures r == VEscape(s, p)
  {
    if p + 1 >= |s| {
      return None;
    }
    if s[p + 1] != LOWER_U {
      return if IsShortEscape(s[p + 1]) then Some(p + 2) else None;
    }
    var cp := ScanHex4(s, p + 2);
    if cp.None? {
      return None;
    }
    var q := p + 6;
    if IsHighSurrogate(cp.value) {
      if |s| - q < 6 || s[q] != BACKSLASH || s[q + 1] != LOWER_U {
        return None;
      }
      var lo := ScanHex4(s, q + 2);
      if lo.None? || !IsLowSurrogate(lo.value) {
        return None;
      }
      return Some(q + 6);
    }
    return if IsLowSurrogate(cp.value) then None else Some(q);
  }

  method ScanString(s: bytes, start: nat) returns (r: Option<nat>)
    ensures r == VString(s, start)
  {
    var p := start;
    while true
      invariant p >= start && VString(s, start) == VString(s, p)
      decreases |s| - p
    {
      if p >= |s| {
        return None;
      }
      var c := s[p];
      if c == QUOTE {
        return Some(p + 1);
      }
      if c == BACKSLASH {
        var q := ScanEscape(s, p);
        if q.None? {
          return None;
        }
        p := q.value;
      } else if c < 0x20 {
        return None;
      } else {
        p := p + 1;
      }
    }
  }

  method SkipWhitespace(s: bytes, start: nat) returns (p: nat)
    requires start <= |s|
    ensures p == SkipWs(s, start)
  {
    p := start;
    while p < |s| && IsWs(s[p])
      invariant start <= p <= |s| && SkipWs(s, start) == SkipWs(s, p)
    {
      p := p + 1;
    }
  }

  method ValidateNumber(s: bytes, p: nat) returns (r: Option<nat>)
    ensures r == VNumber(s, p)
  {
    var sc := ScanNumber(s, p, |s|);
    r := if sc.err.NumOk? then Some(sc.next) else None;
  }

  method Value(s: bytes, start: nat) returns (r: Option<nat>)
    requires start <= |s|
    ensures r == VValue(s, start)
    decreases |s| - start, 3
  {
    hide VArray, VObject, VString, VNumber;
    var p := SkipWhitespace(s, start);
    if p >= |s| {
      return None;
    }
    match s[p] {
      case 0x74 => r := VLiteral(s, p, TRUE);
      case 0x66 => r := VLiteral(s, p, FALSE);
      case 0x6E => r := VLiteral(s, p, NULL);
      case 0x22 => r := ScanString(s, p + 1);
      case 0x5B => r := ScanArray(s, p + 1);
      case 0x7B => r := ScanObject(s, p + 1);
      case _ => r := ValidateNumber(s, p);
    }
  }

  method ScanArray(s: bytes, start: nat) returns (r: Option<nat>)
    requires start <= |s|
    ensures r == VArray(s, start)
    decreases |s| - start, 5
  {
    hide VValue, SkipWs;
    var p := SkipWhitespace(s, start);
    if p < |s| && s[p] == RBRACKET {
      return Some(p + 1);
    }
    while true
      invariant start <= p <= |s| && VArray(s, start) == VElements(s, p)
      decreases |s| - p
    {
      var n := Value(s, p);
      if n.None? {
        return None;
      }
      var q := SkipWhitespace(s, n.value);
      if q >= |s| {
        return None;
      }
      if s[q] == RBRACKET {
        return Some(q + 1);
      }
      if s[q] != COMMA {
        return None;
      }
      p := SkipWhitespace(s, q + 1);
    }
  }

  method ScanKey(s: bytes, start: nat) returns (r: Option<nat>)
    requires start <= |s|
    ensures r == VKey(s, start)
  {
    hide VString;
    var p := SkipWhitespace(s, start);
    if p >= |s| || s[p] != QUOTE {
      return None;
    }
    var n := ScanString(s, p + 1);
    if n.None? {
      return None;
    }
    var c := SkipWhitespace(s, n.value);
    if c >= |s| || s[c] != COLON {
      return None;
    }
    return Some(c + 1);
  }

  method ScanObject(s: bytes, start: nat) returns (r: Option<nat>)
    requires start <= |s|
    ensures r == VObject(s, start)
    decreases |s| - start, 5
  {
    hide VValue, VKey;
    var p := SkipWhitespace(s, start);
    if p < |s| && s[p] == RBRACE {
      return Some(p + 1);
    }
    while true
      invariant start <= p <= |s| && VObject(s, start) == VMembers(s, p)
      decreases |s| - p
    {
      var c := ScanKey(s, p);
      if c.None? {
        return None;
      }
      var n := Value(s, c.value);
      if n.None? {
        return None;
      }
      var q := SkipWhitespace(s, n.value);
      if q >= |s| {
        return None;
      }
      if s[q] == RBRACE {
        return Some(q + 1);
      }
      if s[q] != COMMA {
        return None;
      }
      p := q + 1;
    }
  }

  method ConstParse(s: bytes) returns (ok: bool)
    ensures ok == ValidText(s)
  {
    hide VValue;
    var n := Value(s, 0);
    if n.None? {
      return false;
    }
    var p := SkipWhitespace(s, n.value);
    return p == |s|;
  }
}
