/**
 A patch against sections 3 to 5 of RFC 6902. The operations are the standard's but for test: the standard compares
 numbers by value, the library by type first. So a patch ends as the standard's does exactly when none of its tests
 depends on an integer being equal to a double.
 */
module PatchTests {
  import opened Core
  import opened Pointers
  import opened JsonOrder
  import opened PatchSpec
  import opened PatchLaws
  import opened NumericEquality
  import opened RfcOps
  import opened PatchMeaning

  // ---- one test ----

  /** The target is there and equal to the value, and an integer meets a double on the way. */
  predicate MixedTest(v: Json, path: Path, x: Json) {
    Evaluate(v, path).Some? && RfcEq(Evaluate(v, path).value, x) && !Unmixed(Evaluate(v, path).value, x)
  }

  /**
   A test of something that is there passes if and only if the two are equal in the standard's sense and no integer
   meets a double; so it is the standard's test if and only if it is no mixed one, which it refuses.
   */
  lemma TestIsRfc(v: Json, path: Path, x: Json)
    ensures TestAt(v, path, x).Done? <==>
      var y := Evaluate(v, path); y.Some? && RfcEq(y.value, x) && Unmixed(y.value, x)
    ensures Agree(TestAt(v, path, x), Test(v, path, x)) <==> !MixedTest(v, path, x)
    ensures MixedTest(v, path, x) ==> TestAt(v, path, x) == Refused(TestFailed) && Test(v, path, x) == Some(v)
  {
    hide Lookup, Evaluate, Eq, RfcEq, Unmixed;
    LookupMeans(v, path);
    if Lookup(v, path).Done? { EqIsRfcEq(Lookup(v, path).value, x); }
  }

  /** A mixed test: 1 at /x, tested against 1.0. */
  lemma IntegerTestedAgainstDouble()
    ensures var x: bytes := [0x78]; var one: Double := 0x3FF0_0000_0000_0000; var v := Obj([Member(x, Int(1))]);
      && TestAt(v, [x], Float(one)) == Refused(TestFailed)
      && Test(v, [x], Float(one)) == Some(v)
  {
    var x: bytes := [0x78];
    var one: Double := 0x3FF0_0000_0000_0000;
    var ms := [Member(x, Int(1))];
    FirstMatchUnique(ms, x, 0);
    LookupOne(Obj(ms), [x]);
    LookupMeans(Obj(ms), [x]);
    OneIsScaled();
    hide Scaled;
  }

  lemma FractionIsPow2()
    ensures Pow2(52) == FRACTION
  {
    assert Pow2(8) == 256;
    Pow2Adds(8, 8);
    Pow2Adds(16, 16);
    Pow2Adds(32, 16);
    assert Pow2(4) == 16;
    Pow2Adds(48, 4);
  }

  lemma OneIsScaled()
    ensures Finite(0x3FF0_0000_0000_0000) && Scaled(0x3FF0_0000_0000_0000) == 1 * UNITS
  {
    FractionIsPow2();
    Pow2Adds(52, 1022);
    hide Pow2;
    var m := 0x3FF0_0000_0000_0000;
    assert m % SIGN == m && Exponent(m) == 1023 && Fraction(m) == 0;
  }

  // ---- operations and patches ----

  lemma Spells(t: string, b: bytes)
    requires |t| == |b| && forall i :: 0 <= i < |t| ==> t[i] as int == b[i] < 128
    ensures Spell(t) == b
  {
  }

  lemma Names()
    ensures K_OP == Spell("op") && K_PATH == Spell("path") && K_VALUE == Spell("value") && K_FROM == Spell("from")
    ensures ADD == Spell("add") && REMOVE == Spell("remove") && REPLACE == Spell("replace")
    ensures MOVE == Spell("move") && COPY == Spell("copy") && TEST == Spell("test")
  {
    Spells("op", K_OP);
    Spells("path", K_PATH);
    Spells("value", K_VALUE);
    Spells("from", K_FROM);
    Spells("add", ADD);
    Spells("remove", REMOVE);
    Spells("replace", REPLACE);
    Spells("move", MOVE);
    Spells("copy", COPY);
    Spells("test", TEST);
  }

  lemma NamesDiffer()
    ensures ADD != REMOVE && ADD != REPLACE && ADD != MOVE && ADD != COPY && ADD != TEST && REMOVE != REPLACE
    ensures REMOVE != MOVE && REMOVE != COPY && REMOVE != TEST && REPLACE != MOVE && REPLACE != COPY && REPLACE != TEST
    ensures MOVE != COPY && MOVE != TEST && COPY != TEST
  {
    assert |ADD| == 3 && |REMOVE| == 6 && |REPLACE| == 7 && |MOVE| == |COPY| == |TEST| == 4;
    assert MOVE[0] == 0x6D && COPY[0] == 0x63 && TEST[0] == 0x74;
  }

  ghost predicate SameField(ms: seq<Member>, n: bytes) {
    && Field(ms, n) == Named(ms, n) && TextField(ms, n) == TextNamed(ms, n)
    && (TextField(ms, n).Some? ==> ParsePointer(TextField(ms, n).value) == PointerNamed(ms, n))
    && (TextField(ms, n).None? ==> PointerNamed(ms, n).None?)
  }

  lemma FieldMeans(ms: seq<Member>, name: bytes)
    ensures SameField(ms, name)
  {
    hide NameAt, FirstMatch, ParsePointer, Tokens;
    NameFound(ms, name, 0);
    if TextField(ms, name).Some? { TokensAreParsed(TextField(ms, name).value); }
  }

  lemma Fields(ms: seq<Member>)
    ensures SameField(ms, K_OP) && SameField(ms, K_PATH) && SameField(ms, K_VALUE) && SameField(ms, K_FROM)
  {
    hide SameField;
    FieldMeans(ms, K_OP);
    FieldMeans(ms, K_PATH);
    FieldMeans(ms, K_VALUE);
    FieldMeans(ms, K_FROM);
  }

  /**
   The shape scan passes exactly the well-formed operations: it refuses a text `op` that names none of the six, then
   whatever lacks a member, then a pointer that is none.
   */
  lemma ShapeIsWellFormed(op: Json)
    ensures ShapeError(op).None? <==> WellFormed(op)
    ensures ShapeError(op) == Some(UnknownOp) <==>
      op.Obj? && var name := TextNamed(op.members, Spell("op")); name.Some? && !IsOperation(name.value)
    ensures ShapeError(op) == Some(InvalidPointer) ==>
      exists key :: key in {Spell("path"), Spell("from")} && TextNamed(op.members, key).Some? &&
        PointerNamed(op.members, key).None?
  {
    hide Field, Named, TextField, TextNamed, ParsePointer, PointerNamed, Spell;
    Names();
    NamesDiffer();
    if op.Obj? { Fields(op.members); }
  }

  /** A test whose outcome depends on an integer being equal to a double. */
  ghost predicate MixedOp(v: Json, op: Json) {
    && WellFormed(op) && TextNamed(op.members, Spell("op")) == Some(Spell("test"))
    && MixedTest(v, PointerNamed(op.members, Spell("path")).value, Named(op.members, Spell("value")).value)
  }

  lemma NamedIsRfc(v: Json, op: Json)
    requires WellFormed(op)
    ensures var name, path := TextNamed(op.members, Spell("op")).value, PointerNamed(op.members, Spell("path")).value;
      var o := ApplyNamed(v, op.members, name, path);
      && (Agree(o, Perform(v, op)) <==> !MixedOp(v, op))
      && (MixedOp(v, op) ==> o == Refused(TestFailed) && Perform(v, op).Some?)
  {
    hide Field, Named, TextField, TextNamed, ParsePointer, PointerNamed, Spell;
    hide AddAt, RemoveAt, ReplaceAt, MoveTo, CopyTo, TestAt, RfcOps.Add, Remove, Replace, Move, Copy, Test, MixedTest;
    Names();
    NamesDiffer();
    var ms := op.members;
    Fields(ms);
    var name, path := TextNamed(ms, K_OP).value, PointerNamed(ms, K_PATH).value;
    if name == REMOVE {
      RemoveIsRfc(v, path);
    } else if TakesValue(name) {
      var x := Named(ms, K_VALUE).value;
      AddIsRfc(v, path, x);
      ReplaceIsRfc(v, path, x);
      TestIsRfc(v, path, x);
    } else {
      var from := PointerNamed(ms, K_FROM).value;
      MoveIsRfc(v, from, path);
      CopyIsRfc(v, from, path);
    }
  }

  lemma OneIsRfc(v: Json, op: Json)
    ensures Agree(ApplyOne(v, op), Perform(v, op)) <==> !MixedOp(v, op)
    ensures MixedOp(v, op) ==> ApplyOne(v, op) == Refused(TestFailed) && Perform(v, op).Some?
  {
    hide Field, Named, TextField, TextNamed, ParsePointer, PointerNamed, Spell;
    hide AddAt, RemoveAt, ReplaceAt, MoveTo, CopyTo, TestAt, RfcOps.Add, Remove, Replace, Move, Copy, Test, MixedTest;
    Names();
    NamesDiffer();
    if op.Obj? { Fields(op.members); }
    if WellFormed(op) { NamedIsRfc(v, op); }
  }

  /** Some test of the patch is a mixed one on the document it is run on. */
  ghost predicate MixedFrom(v: Json, ops: seq<Json>, i: nat)
    requires i <= |ops|
    decreases |ops| - i
  {
    i < |ops| && (MixedOp(v, ops[i]) || (Perform(v, ops[i]).Some? && MixedFrom(Perform(v, ops[i]).value, ops, i + 1)))
  }

  ghost predicate Mixed(target: Json, patch: Json) { patch.Arr? && MixedFrom(target, patch.items, 0) }

  /** The same document, or the same first failure. */
  predicate SameEnding(r: PatchResult, e: Ending) {
    match r
    case Patched(w) => e == Reached(w)
    case Rejected(_, i) => e == ErrorAt(i)
  }

  lemma {:induction false} ErrorIndex(v: Json, ops: seq<Json>, i: nat)
    requires i <= |ops|
    ensures PerformFrom(v, ops, i).ErrorAt? ==> PerformFrom(v, ops, i).index >= i
    decreases |ops| - i
  {
    hide Perform;
    if i < |ops| && Perform(v, ops[i]).Some? { ErrorIndex(Perform(v, ops[i]).value, ops, i + 1); }
  }

  lemma {:induction false} RunIsRfc(v: Json, ops: seq<Json>, i: nat)
    requires i <= |ops|
    ensures SameEnding(ApplyFrom(v, ops, i), PerformFrom(v, ops, i)) <==> !MixedFrom(v, ops, i)
    ensures MixedFrom(v, ops, i) ==> ApplyFrom(v, ops, i).Rejected? && ApplyFrom(v, ops, i).kind == TestFailed
    decreases |ops| - i
  {
    hide Perform, ApplyOne, MixedOp;
    if i < |ops| {
      OneIsRfc(v, ops[i]);
      ApplyStep(v, ops, i);
      if MixedOp(v, ops[i]) {
        ErrorIndex(Perform(v, ops[i]).value, ops, i + 1);
      } else if Perform(v, ops[i]).Some? {
        RunIsRfc(Perform(v, ops[i]).value, ops, i + 1);
      }
    }
  }

  /** An ill-formed operation is an error for the standard too, when its turn comes. */
  lemma {:induction false} IllFormedFails(v: Json, ops: seq<Json>, i: nat, k: nat)
    requires i <= k < |ops| && !WellFormed(ops[k])
    ensures PerformFrom(v, ops, i).ErrorAt? && PerformFrom(v, ops, i).index <= k
    decreases k - i
  {
    hide WellFormed;
    if i < k {
      hide Perform;
      if Perform(v, ops[i]).Some? { IllFormedFails(Perform(v, ops[i]).value, ops, i + 1, k); }
    }
  }

  /** Operation k is ill-formed and those before it are not. */
  ghost predicate FirstIllFormed(ops: seq<Json>, k: nat) {
    k < |ops| && !WellFormed(ops[k]) && forall j :: 0 <= j < k ==> WellFormed(ops[j])
  }

  lemma {:induction false} ScanFindsFirst(ops: seq<Json>, i: nat)
    requires i <= |ops| && forall j :: 0 <= j < i ==> WellFormed(ops[j])
    ensures match ScanFrom(ops, i)
            case None => forall j :: 0 <= j < |ops| ==> WellFormed(ops[j])
            case Some(e) => FirstIllFormed(ops, e.1) && ShapeError(ops[e.1]) == Some(e.0)
    decreases |ops| - i
  {
    hide ShapeError, WellFormed;
    if i < |ops| {
      ShapeIsWellFormed(ops[i]);
      if ShapeError(ops[i]).None? { ScanFindsFirst(ops, i + 1); }
    }
  }

  /**
   A patch of well-formed operations ends as the standard's does, same document or same first failure, if and only if no
   test it runs is a mixed one, and a mixed test makes it fail. A patch with an ill-formed operation is refused for the
   first of them before anything is run, and is an error for the standard. So whatever the library arrives at is what
   the standard says.
   */
  lemma PatchIsRfc(target: Json, patch: Json)
    ensures patch.Arr? && (forall j :: 0 <= j < |patch.items| ==> WellFormed(patch.items[j])) ==>
      && (SameEnding(Patch(target, patch), PerformPatch(target, patch)) <==> !Mixed(target, patch))
      && (Mixed(target, patch) ==> Patch(target, patch).Rejected? && Patch(target, patch).kind == TestFailed)
    ensures forall k: nat :: patch.Arr? && FirstIllFormed(patch.items, k) ==>
      && Patch(target, patch).Rejected? && Patch(target, patch).opIndex == k
      && ShapeError(patch.items[k]) == Some(Patch(target, patch).kind) && PerformPatch(target, patch).ErrorAt?
    ensures !patch.Arr? ==> Patch(target, patch).Rejected? && PerformPatch(target, patch).ErrorAt?
    ensures Patch(target, patch).Patched? ==> PerformPatch(target, patch) == Reached(Patch(target, patch).value)
  {
    hide ApplyFrom, PerformFrom, MixedFrom, ScanFrom, WellFormed, ShapeError;
    if patch.Arr? {
      ScanFindsFirst(patch.items, 0);
      var e := ScanFrom(patch.items, 0);
      if e.None? {
        RunIsRfc(target, patch.items, 0);
      } else {
        IllFormedFails(target, patch.items, 0, e.value.1);
      }
    }
  }

  function TestOp(path: Path, x: Json): Json {
    Obj([Member(K_OP, Str(TEST)), Member(K_PATH, Str(FormatPointer(path))), Member(K_VALUE, x)])
  }

  lemma TestOpApplies(v: Json, path: Path, x: Json)
    ensures ShapeError(TestOp(path, x)).None? && ApplyOne(v, TestOp(path, x)) == TestAt(v, path, x)
  {
    hide ParsePointer, FormatPointer, TestAt;
    FieldNames();
    NamesDiffer();
    PointerRoundTrip(path);
    var ms := TestOp(path, x).members;
    FirstMatchUnique(ms, K_OP, 0);
    FirstMatchUnique(ms, K_PATH, 1);
    FirstMatchUnique(ms, K_VALUE, 2);
  }

  /** A patch of one test of something that is there. */
  lemma TestPatch(v: Json, path: Path, x: Json)
    requires Evaluate(v, path).Some?
    ensures var y := Evaluate(v, path).value;
      Patch(v, Arr([TestOp(path, x)])) == if RfcEq(y, x) && Unmixed(y, x) then Patched(v) else Rejected(TestFailed, 0)
  {
    hide Patch, ApplyOne, ShapeError, TestOp, Eq, RfcEq, Unmixed, Lookup, Evaluate;
    TestOpApplies(v, path, x);
    OneOp(v, TestOp(path, x));
    LookupMeans(v, path);
    TestIsRfc(v, path, x);
  }
}
