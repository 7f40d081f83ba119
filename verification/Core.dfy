/**
 The vocabulary every other module shares: bytes, the value tree, kernel errors,
 captured configuration, and a padded input buffer.
 */
module Core {

  type byte = x: int | 0 <= x < 256
  type bytes = seq<byte>

  const INT64_MIN: int := -0x8000_0000_0000_0000
  const INT64_MAX: int := 0x7FFF_FFFF_FFFF_FFFF
  const SIZE_MAX: int := 0xFFFF_FFFF_FFFF_FFFF
  type int64 = x: int | -0x8000_0000_0000_0000 <= x <= 0x7FFF_FFFF_FFFF_FFFF

  /** An IEEE-754 double, as its 64-bit pattern. */
  type Double = x: int | 0 <= x < 0x1_0000_0000_0000_0000

  datatype Option<+T> = None | Some(value: T)

  /** A value tree. An object is the sequence of its entries, in entry order. */
  datatype Json =
    | Null
    | Bool(b: bool)
    | Int(i: int64)
    | Float(d: Double)
    | Str(s: bytes)
    | Arr(items: seq<Json>)
    | Obj(members: seq<Member>)

  datatype Member = Member(key: bytes, value: Json)

  function Keys(ms: seq<Member>): (ks: set<bytes>)
  {
    set i | 0 <= i < |ms| :: ms[i].key
  }

  ghost predicate DistinctKeys(ms: seq<Member>) {
    forall i, j :: 0 <= i < j < |ms| ==> ms[i].key != ms[j].key
  }

  /** Every object of the tree, at every depth, has pairwise distinct keys. */
  ghost predicate WellKeyed(j: Json) {
    match j
    case Arr(items) => forall i :: 0 <= i < |items| ==> WellKeyed(items[i])
    case Obj(ms) => DistinctKeys(ms) && forall i :: 0 <= i < |ms| ==> WellKeyed(ms[i].value)
    case _ => true
  }

  /** Position of the first entry with this key, or the number of entries. */
  function FirstMatch(ms: seq<Member>, key: bytes): (r: nat)
    ensures r <= |ms|
    ensures forall i :: 0 <= i < r ==> ms[i].key != key
    ensures r < |ms| ==> ms[r].key == key
  {
    if |ms| == 0 then 0
    else if ms[0].key == key then 0
    else FirstMatch(ms[1..], key) + 1
  }

  lemma FirstMatchUnique(ms: seq<Member>, key: bytes, r: nat)
    requires r <= |ms|
    requires forall i :: 0 <= i < r ==> ms[i].key != key
    requires r < |ms| ==> ms[r].key == key
    ensures FirstMatch(ms, key) == r
  {
  }

  /** Last-wins insertion: an existing key keeps its position and takes the value; a new key is appended. */
  function Upsert(ms: seq<Member>, key: bytes, v: Json): (r: seq<Member>)
  {
    var i := FirstMatch(ms, key);
    if i < |ms| then ms[i := Member(ms[i].key, v)] else ms + [Member(key, v)]
  }

  lemma UpsertKeepsDistinct(ms: seq<Member>, key: bytes, v: Json)
    requires DistinctKeys(ms)
    ensures DistinctKeys(Upsert(ms, key, v))
    ensures Keys(Upsert(ms, key, v)) == Keys(ms) + {key}
  {
    var r := Upsert(ms, key, v);
    var f := FirstMatch(ms, key);
    forall k ensures k in Keys(r) <==> k in Keys(ms) + {key} {
      if k in Keys(ms) {
        var i :| 0 <= i < |ms| && ms[i].key == k;
        assert r[i].key == k;
      }
      if k == key { assert r[f].key == k; }
      if k in Keys(r) {
        var i :| 0 <= i < |r| && r[i].key == k;
        if i < |ms| { assert ms[i].key == k; }
      }
    }
  }

  // ---- kernel errors ----

  datatype Code =
    | ExtraCharactersAfterValue | MaxDepthExceeded | ExpectedCommaOrBracket
    | InvalidLiteral | InvalidLiteralTrailing
    | NumberNoIntDigits | NumberLeadingZero | NumberNoFracDigits | NumberNoExpDigits
    | NumberOutOfRange | NumberInvalidFormat
    | ExpectedStringKey | ExpectedColon | UnexpectedEndOfObject | ExpectedCommaOrBrace
    | ExpectedQuote | UnterminatedString | UnescapedControl
    | InvalidHexDigit | InvalidEscapeChar | InvalidSurrogatePair | ExpectedLowSurrogate | LoneLowSurrogate
    | UnexpectedCharacter | UnexpectedEndOfInput | UnexpectedValueCharacter
    | Utf8Overlong | Utf8InvalidLead | Utf8InvalidContinuation | Utf8Surrogate | Utf8ExceedsMax | Utf8Truncated
    | DuplicateKey | InvalidCodepoint
    | NonFiniteDouble | DumpMaxDepthExceeded | InvalidIndentChar

  /** A failure is either positioned in the input or context-free. */
  datatype Error = Positioned(code: Code, offset: nat) | ContextFree(code: Code)

  /** Outcome of a parse step: the value with the cursor after it, or the first failure. */
  datatype Parsed<+T> = Ok(value: T, next: nat) | Fail(error: Error)

  // ---- library calls that are not part of this model ----

  datatype FloatParse = InRange(d: Double) | OutOfRange | BadFormat

  /** std::from_chars and std::to_chars for doubles, as parameters. */
  datatype FloatLib = FloatLib(fromChars: bytes -> FloatParse, fromHex: bytes -> FloatParse, toChars: Double -> bytes)

  /** The settings a parser or reader captures when it is constructed. */
  datatype Config = Config(
    json5: bool,
    stripBom: bool,
    strictUtf8: bool,
    strictKeys: bool,
    maxDepth: nat,       // 0 means unlimited
    lib: FloatLib,
    identStart: nat -> bool,
    identPart: nat -> bool)

  // ---- input buffers ----

  /** The byte at p, with NUL padding past the text. */
  function At(s: bytes, p: nat): byte {
    if p < |s| then s[p] else 0
  }

  /**
   A parse buffer. The parser may read past `end` (its logical end): bytes between `end`
   and |buf| are whatever follows in the same buffer, bytes at and past |buf| are NUL padding.
   */
  datatype Input_ = Input(buf: bytes, end: nat)
  type Input = b: Input_ | b.end <= |b.buf| witness Input([], 0)

  function Whole(s: bytes): (b: Input)
  {
    Input(s, |s|)
  }

  /** The text `t` occurs in `s` at position `p`. */
  ghost predicate MatchAt(s: bytes, p: nat, t: bytes) {
    p + |t| <= |s| && forall i {:trigger t[i]} :: 0 <= i < |t| ==> s[p + i] == t[i]
  }

  lemma MatchConcat(s: bytes, p: nat, t: bytes, u: bytes)
    ensures MatchAt(s, p, t + u) <==> MatchAt(s, p, t) && MatchAt(s, p + |t|, u)
  {
    var tu := t + u;
    if MatchAt(s, p, t + u) {
      forall i | 0 <= i < |t| ensures s[p + i] == t[i] { assert tu[i] == t[i]; }
      forall i | 0 <= i < |u| ensures s[p + |t| + i] == u[i] { assert tu[|t| + i] == u[i]; }
    }
    if MatchAt(s, p, t) && MatchAt(s, p + |t|, u) {
      forall i | 0 <= i < |tu| ensures s[p + i] == tu[i] {
        if i < |t| { assert tu[i] == t[i]; } else { assert tu[i] == u[i - |t|]; }
      }
    }
  }

  // ---- punctuation ----

  const QUOTE: byte := 0x22
  const BACKSLASH: byte := 0x5C
  const SLASH: byte := 0x2F
  const STAR: byte := 0x2A
  const LBRACE: byte := 0x7B
  const RBRACE: byte := 0x7D
  const LBRACKET: byte := 0x5B
  const RBRACKET: byte := 0x5D
  const COLON: byte := 0x3A
  const COMMA: byte := 0x2C
  const APOSTROPHE: byte := 0x27
  const MINUS: byte := 0x2D
  const PLUS: byte := 0x2B
  const DOT: byte := 0x2E
  const LF: byte := 0x0A
  const CR: byte := 0x0D
  const TILDE: byte := 0x7E
}
