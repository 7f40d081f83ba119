/**
 The edits of PatchSpec against the operations of section 4 of RFC 6902, operation by operation: an edit is done exactly
 when the standard's operation is no error, with the same document.
 */
module PatchMeaning {
  import opened Core
  import opened Numbers
  import opened Pointers
  import opened PatchSpec
  import opened RfcOps

  // ---- pointers ----

  lemma {:induction false} UnescapeMeans(s: bytes, i: nat, e: nat, t: bytes)
    requires i <= e <= |s|
    ensures Unescape(s, i, e) == Some(t) <==> Unescapes(s, i, e, t)
    decreases e - i
  {
    if i < e {
      var n := if s[i] == TILDE then i + 2 else i + 1;
      if n <= e && |t| > 0 {
        UnescapeMeans(s, n, e, t[1..]);
        assert t == [t[0]] + t[1..];
        Behead(s, n, e, t);
      }
    }
  }

  /** The first byte of a decoded token can be told from the rest. */
  lemma Behead(s: bytes, n: nat, e: nat, t: bytes)
    requires n <= e <= |s| && |t| > 0
    ensures forall c: byte :: Prepend(c, Unescape(s, n, e)) == Some(t) <==>
      c == t[0] && Unescape(s, n, e) == Some(t[1..])
  {
    var u := Unescape(s, n, e);
    forall c: byte ensures Prepend(c, u) == Some(t) <==> c == t[0] && u == Some(t[1..]) {
      if u.Some? {
        assert ([c] + u.value)[1..] == u.value;
        assert t == [t[0]] + t[1..];
      }
    }
  }

  lemma NoToken(s: bytes, ts: seq<bytes>)
    ensures TokensAt(s, |s|, ts) <==> |ts| == 0
  {
    hide Unescapes;
  }

  lemma {:induction false} TokensMean(s: bytes, p: nat, ts: seq<bytes>)
    requires p < |s| && s[p] == SLASH
    ensures TokensFrom(s, p + 1) == Some(ts) <==> TokensAt(s, p, ts)
    decreases |s| - p
  {
    hide Unescape, Unescapes;
    if |ts| > 0 {
      var e := NextSlash(s, p + 1);
      UnescapeMeans(s, p + 1, e, ts[0]);
      assert ts == [ts[0]] + ts[1..];
      assert forall x: nat :: TokenAt(s, p, x, ts[0]) ==> x == e;
      assert TokensAt(s, p, ts) <==> TokenAt(s, p, e, ts[0]) && TokensAt(s, e, ts[1..]);
      if e < |s| {
        TokensMean(s, e, ts[1..]);
        var rest := TokensFrom(s, e + 1);
        if rest.Some? && Unescape(s, p + 1, e).Some? {
          assert ([Unescape(s, p + 1, e).value] + rest.value)[1..] == rest.value;
        }
      } else {
        NoToken(s, ts[1..]);
        if |ts| == 1 { assert ts == [ts[0]]; }
      }
    }
  }

  /** The parser accepts exactly the pointers, with their tokens. */
  lemma PointerMeans(s: bytes, ts: seq<bytes>)
    ensures ParsePointer(s) == Some(ts) <==> IsPointer(s, ts)
  {
    hide TokensFrom;
    if |s| > 0 && s[0] == SLASH {
      TokensMean(s, 0, ts);
    }
  }

  lemma TokensAreParsed(s: bytes)
    ensures ParsePointer(s) == Tokens(s)
  {
    hide ParsePointer, IsPointer;
    if ParsePointer(s).Some? { PointerMeans(s, ParsePointer(s).value); }
    if Tokens(s).Some? { PointerMeans(s, Tokens(s).value); }
  }

  // ---- what a token refers to ----

  lemma IndexMeans(t: bytes)
    ensures StrictIndex(t) == ArrayIndex(t)
  {
    DecimalMeans(t);
  }

  lemma {:induction false} NameFound(ms: seq<Member>, name: bytes, i: nat)
    requires i <= |ms| && i <= FirstMatch(ms, name)
    ensures NameAt(ms, name, i) == FirstMatch(ms, name)
    decreases |ms| - i
  {
    if i < FirstMatch(ms, name) { NameFound(ms, name, i + 1); }
  }

  /** Both refuse, or both come to the same tree. */
  predicate Agree(o: Outcome<Json>, r: Option<Json>) {
    o.Done? == r.Some? && (o.Done? ==> o.value == r.value)
  }

  lemma ChildMeans(v: Json, t: bytes)
    ensures Agree(Child(v, t), Step(v, t))
    ensures Child(v, t).Done? ==> forall x :: SetChild(v, t, x) == WithChild(v, t, x)
  {
    hide StrictIndex, ArrayIndex, NameAt, FirstMatch;
    IndexMeans(t);
    if v.Obj? {
      NameFound(v.members, t, 0);
      var i := FirstMatch(v.members, t);
      if i < |v.members| {
        forall x { Restored(v.members, i, Member(v.members[i].key, x)); }
      }
    } else if v.Arr? && StrictIndex(t).Some? {
      var i := StrictIndex(t).value;
      if i < |v.items| {
        forall x { Restored(v.items, i, x); }
      }
    }
  }

  lemma Restored<T>(s: seq<T>, i: nat, x: T)
    requires i < |s|
    ensures s[i := x] == s[..i] + [x] + s[i + 1..]
  {
  }

  lemma {:induction false} LookupMeans(v: Json, path: Path)
    ensures Agree(Lookup(v, path), Evaluate(v, path))
    decreases |path|
  {
    hide Child, Step;
    if |path| > 0 {
      ChildMeans(v, path[0]);
      if Child(v, path[0]).Done? { LookupMeans(Child(v, path[0]).value, path[1..]); }
    }
  }

  lemma DashIsNoIndex()
    ensures ArrayIndex(DASH).None?
  {
    assert DASH[0] == MINUS;
  }

  // ---- edits ----

  lemma AddHereMeans(v: Json, t: bytes, x: Json)
    ensures Agree(AddHere(v, t, x), Add(v, [t], x))
  {
    hide StrictIndex, ArrayIndex, NameAt, FirstMatch;
    IndexMeans(t);
    if v.Obj? {
      NameFound(v.members, t, 0);
      var i := FirstMatch(v.members, t);
      if i < |v.members| { Restored(v.members, i, Member(v.members[i].key, x)); }
    }
  }

  lemma {:induction false} AddIsRfc(v: Json, path: Path, x: Json)
    ensures Agree(AddAt(v, path, x), Add(v, path, x))
    decreases |path|
  {
    hide Child, Step, AddHere, SetChild, WithChild;
    if |path| == 1 {
      assert path == [path[0]];
      AddHereMeans(v, path[0], x);
    } else if |path| > 1 {
      ChildMeans(v, path[0]);
      if Child(v, path[0]).Done? { AddIsRfc(Child(v, path[0]).value, path[1..], x); }
    }
  }

  lemma RemoveHereMeans(v: Json, t: bytes)
    ensures Agree(RemoveHere(v, t), Remove(v, [t]))
  {
    hide StrictIndex, ArrayIndex, NameAt, FirstMatch;
    assert Evaluate(v, [t]) == Step(v, t);
    ChildMeans(v, t);
    IndexMeans(t);
    DashIsNoIndex();
    if v.Obj? { NameFound(v.members, t, 0); }
  }

  lemma {:induction false} RemoveIsRfc(v: Json, path: Path)
    ensures Agree(RemoveAt(v, path), Remove(v, path))
    decreases |path|
  {
    hide Child, Step, RemoveHere, SetChild, WithChild;
    if |path| == 1 {
      assert path == [path[0]];
      RemoveHereMeans(v, path[0]);
    } else if |path| > 1 {
      ChildMeans(v, path[0]);
      if Child(v, path[0]).Done? { RemoveIsRfc(Child(v, path[0]).value, path[1..]); }
    }
  }

  lemma ReplaceHereMeans(v: Json, t: bytes, x: Json)
    ensures Agree(ReplaceHere(v, t, x), Replace(v, [t], x))
  {
    hide StrictIndex, ArrayIndex, NameAt, FirstMatch, SetChild, WithChild;
    assert Evaluate(v, [t]) == Step(v, t);
    ChildMeans(v, t);
    IndexMeans(t);
    DashIsNoIndex();
  }

  lemma {:induction false} ReplaceIsRfc(v: Json, path: Path, x: Json)
    ensures Agree(ReplaceAt(v, path, x), Replace(v, path, x))
    decreases |path|
  {
    hide Child, Step, ReplaceHere, SetChild, WithChild;
    if |path| == 1 {
      assert path == [path[0]];
      ReplaceHereMeans(v, path[0], x);
    } else if |path| > 1 {
      ChildMeans(v, path[0]);
      if Child(v, path[0]).Done? { ReplaceIsRfc(Child(v, path[0]).value, path[1..], x); }
    }
  }

  lemma {:induction false} SourceMeans(v: Json, path: Path)
    requires |path| > 0
    ensures Agree(ResolveSource(v, path), Evaluate(v, path))
    decreases |path|
  {
    hide Child, Step, ArrayIndex, StrictIndex;
    ChildMeans(v, path[0]);
    if |path| == 1 {
      IndexMeans(path[0]);
      DashIsNoIndex();
      DashChild(v);
      assert Evaluate(v, path) == Step(v, path[0]) by { if Step(v, path[0]).Some? { assert path[1..] == []; } }
    } else if Child(v, path[0]).Done? {
      SourceMeans(Child(v, path[0]).value, path[1..]);
    }
  }

  lemma DashChild(v: Json)
    ensures v.Arr? ==> Step(v, DASH).None?
  {
    DashIsNoIndex();
  }

  lemma MoveIsRfc(v: Json, from: Path, path: Path)
    ensures Agree(MoveTo(v, from, path), Move(v, from, path))
  {
    hide ResolveSource, RemoveAt, AddAt, Evaluate, Remove, Add;
    if |from| > 0 {
      SourceMeans(v, from);
      RemoveIsRfc(v, from);
      if RemoveAt(v, from).Done? && ResolveSource(v, from).Done? {
        AddIsRfc(RemoveAt(v, from).value, path, ResolveSource(v, from).value);
      }
    }
  }

  lemma CopyIsRfc(v: Json, from: Path, path: Path)
    ensures Agree(CopyTo(v, from, path), Copy(v, from, path))
  {
    hide Lookup, AddAt, Evaluate, Add;
    LookupMeans(v, from);
    if Lookup(v, from).Done? { AddIsRfc(v, path, Lookup(v, from).value); }
  }

  // ---- what a refusal says ----

  /** Why a token does not refer to anything in a node. */
  function Missing(node: Json, t: bytes): Kind {
    match node
    case Obj(_) => PathNotFound
    case Arr(_) => if ArrayIndex(t).None? then InvalidArrayIndex else IndexOutOfRange
    case _ => TypeMismatch
  }

  /** The walk along path gets to a node at which token i refers to nothing, for this reason. */
  predicate StopsAt(v: Json, path: Path, i: nat, k: Kind) {
    i < |path| && Evaluate(v, path[..i]).Some? &&
    var node := Evaluate(v, path[..i]).value; Step(node, path[i]).None? && k == Missing(node, path[i])
  }

  lemma StopsBelow(v: Json, path: Path, i: nat, k: Kind)
    requires |path| > 0 && Step(v, path[0]).Some? && StopsAt(Step(v, path[0]).value, path[1..], i, k)
    ensures StopsAt(v, path, i + 1, k)
  {
    hide Step, Missing;
    assert path[..i + 1][1..] == path[1..][..i] && path[..i + 1][0] == path[0];
  }

  /** A refused lookup says where the walk stops and why; a refused removal or replacement says the same. */
  lemma {:induction false} LookupRefused(v: Json, path: Path)
    ensures Lookup(v, path).Refused? ==> exists i: nat :: StopsAt(v, path, i, Lookup(v, path).kind)
    decreases |path|
  {
    hide StopsAt;
    if Lookup(v, path).Refused? {
      ChildMeans(v, path[0]);
      if Child(v, path[0]).Done? {
        var c, k := Child(v, path[0]).value, Lookup(v, path).kind;
        LookupRefused(c, path[1..]);
        var i: nat :| StopsAt(c, path[1..], i, k);
        StopsBelow(v, path, i, k);
      } else {
        StopsHere(v, path);
      }
    }
  }

  lemma StopsHere(v: Json, path: Path)
    requires |path| > 0 && Child(v, path[0]).Refused?
    ensures StopsAt(v, path, 0, Child(v, path[0]).kind)
  {
    hide StrictIndex, ArrayIndex, NameAt, FirstMatch;
    assert path[..0] == [];
    IndexMeans(path[0]);
    ChildMeans(v, path[0]);
  }

  /** An addition is refused where the walk to the parent stops, or by a parent that has no such place. */
  lemma {:induction false} AddRefused(v: Json, path: Path, x: Json)
    requires |path| > 0
    ensures AddAt(v, path, x).Refused? ==>
      var init, last := path[..|path| - 1], path[|path| - 1]; var k := AddAt(v, path, x).kind;
      || (exists i: nat :: StopsAt(v, init, i, k))
      || (Evaluate(v, init).Some? && Add(Evaluate(v, init).value, [last], x).None? &&
          k == Missing(Evaluate(v, init).value, last))
    decreases |path|
  {
    hide StopsAt;
    var init := path[..|path| - 1];
    if AddAt(v, path, x).Refused? {
      if |path| == 1 {
        assert init == [];
        AddHereRefused(v, path[0], x);
      } else {
        ChildMeans(v, path[0]);
        assert init[0] == path[0] && init[1..] == path[1..][..|path| - 2] && path[1..][|path| - 2] == path[|path| - 1];
        if Child(v, path[0]).Done? {
          var c, k := Child(v, path[0]).value, AddAt(v, path, x).kind;
          AddRefused(c, path[1..], x);
          if i: nat :| StopsAt(c, init[1..], i, k) { StopsBelow(v, init, i, k); }
        } else {
          StopsHere(v, init);
        }
      }
    }
  }

  lemma AddHereRefused(v: Json, t: bytes, x: Json)
    ensures AddHere(v, t, x).Refused? ==> AddHere(v, t, x).kind == Missing(v, t) && Add(v, [t], x).None?
  {
    hide StrictIndex, ArrayIndex;
    IndexMeans(t);
    DashIsNoIndex();
    AddHereMeans(v, t, x);
  }
}
