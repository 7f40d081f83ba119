/**
 What the pointer filter selects, said from the text of the pointer and the tree alone: which token is `*`, which an
 index and which a name, and what each refers to. The filter yields exactly that.
 */
module Selection {
  import opened Core
  import opened Lexis
  import opened Numbers
  import opened Pointers
  import opened StreamSpec
  import opened ItemsSpec
  import opened Items
  import opened PatchSpec
  import opened RfcOps
  import opened PatchMeaning

  import ItemsCorrect

  // ---- tokens ----

  predicate IsStar(t: bytes) { |t| == 1 && t[0] == '*' as int }

  /** Digits, leading zeros included, of a value that fits 64 bits. */
  predicate IsIndex(t: bytes) { |t| > 0 && IsDecimal(t) && DecimalValue(t) < 18446744073709551616 }

  predicate IsName(t: bytes) { !IsStar(t) && !IsIndex(t) }

  // ---- what a path selects ----

  /**
   The events of the values the tokens lead to: `*` leads to every element of an array, an index to one, a name to every
   member of an object that has it, in document order, and everything else to nothing.
   */
  function Chosen(ts: seq<bytes>, v: Json): seq<Event>
    decreases v, 1, 0
  {
    if |ts| == 0 then Flatten(v)
    else
      match v
      case Arr(items) =>
        if IsStar(ts[0]) then ChosenItems(ts[1..], v, 0)
        else if IsIndex(ts[0]) && DecimalValue(ts[0]) < |items| then Chosen(ts[1..], items[DecimalValue(ts[0])])
        else []
      case Obj(ms) => if IsName(ts[0]) then ChosenMembers(ts[0], ts[1..], v, 0) else []
      case _ => []
  }

  function ChosenItems(rest: seq<bytes>, v: Json, k: nat): seq<Event>
    requires v.Arr? && k <= |v.items|
    decreases v, 0, |v.items| - k
  {
    if k == |v.items| then [] else Chosen(rest, v.items[k]) + ChosenItems(rest, v, k + 1)
  }

  function ChosenMembers(name: bytes, rest: seq<bytes>, v: Json, k: nat): seq<Event>
    requires v.Obj? && k <= |v.members|
    decreases v, 0, |v.members| - k
  {
    if k == |v.members| then []
    else if v.members[k].key == name then Chosen(rest, v.members[k].value) + ChosenMembers(name, rest, v, k + 1)
    else ChosenMembers(name, rest, v, k + 1)
  }

  function ChosenAll(ts: seq<bytes>, vs: seq<Json>): seq<Event> {
    if |vs| == 0 then [] else Chosen(ts, vs[0]) + ChosenAll(ts, vs[1..])
  }

  // ---- the filter's tokens ----

  /** The filter reads a token as what it is. */
  lemma ClassifiedMeans(t: bytes)
    ensures Classified(t).AnyToken? <==> IsStar(t)
    ensures Classified(t).IndexToken? <==> IsIndex(t)
    ensures IsIndex(t) ==> Classified(t).index == DecimalValue(t) && !IsStar(t)
    ensures IsName(t) ==> Classified(t) == KeyToken(t)
  {
    DecimalMeans(t);
  }

  lemma ClassifiedRest(ts: seq<bytes>)
    requires |ts| > 0
    ensures ClassifiedAll(ts)[0] == Classified(ts[0]) && ClassifiedAll(ts)[1..] == ClassifiedAll(ts[1..])
  {
    hide Classified;
  }

  lemma {:induction false} SelectMeans(ts: seq<bytes>, v: Json)
    ensures Select(ClassifiedAll(ts), v) == Chosen(ts, v)
    decreases v, 1, 0
  {
    hide ClassifiedAll, Classified, IsIndex, IsStar;
    if |ts| > 0 {
      ClassifiedRest(ts);
      ClassifiedMeans(ts[0]);
      if v.Arr? {
        SelectItemsMean(ts, v, 0);
      } else if v.Obj? {
        SelectMembersMean(ts, v, 0);
      }
    }
  }

  /** What the elements from k on contribute. */
  function ChosenFrom(ts: seq<bytes>, v: Json, k: nat): seq<Event>
    requires |ts| > 0 && v.Arr? && k <= |v.items|
  {
    if IsStar(ts[0]) then ChosenItems(ts[1..], v, k)
    else if IsIndex(ts[0]) && k <= DecimalValue(ts[0]) < |v.items| then Chosen(ts[1..], v.items[DecimalValue(ts[0])])
    else []
  }

  lemma {:induction false} SelectItemsMean(ts: seq<bytes>, v: Json, k: nat)
    requires |ts| > 0 && v.Arr? && k <= |v.items|
    ensures SelectItems(ClassifiedAll(ts), v, k) == ChosenFrom(ts, v, k)
    decreases v, 0, |v.items| - k
  {
    hide ClassifiedAll, Classified, IsIndex, IsStar, Select, Chosen;
    if k < |v.items| {
      ClassifiedRest(ts);
      ClassifiedMeans(ts[0]);
      SelectMeans(ts[1..], v.items[k]);
      SelectItemsMean(ts, v, k + 1);
    }
  }

  lemma {:induction false} SelectMembersMean(ts: seq<bytes>, v: Json, k: nat)
    requires |ts| > 0 && v.Obj? && k <= |v.members|
    ensures SelectMembers(ClassifiedAll(ts), v, k) == if IsName(ts[0]) then ChosenMembers(ts[0], ts[1..], v, k) else []
    decreases v, 0, |v.members| - k
  {
    hide ClassifiedAll, Classified, IsIndex, IsStar, Select, Chosen;
    if k < |v.members| {
      ClassifiedRest(ts);
      ClassifiedMeans(ts[0]);
      SelectMeans(ts[1..], v.members[k].value);
      SelectMembersMean(ts, v, k + 1);
    }
  }

  lemma {:induction false} SelectAllMeans(ts: seq<bytes>, vs: seq<Json>)
    ensures SelectAll(ClassifiedAll(ts), vs) == ChosenAll(ts, vs)
  {
    hide Select, Chosen, ClassifiedAll;
    if |vs| > 0 {
      SelectMeans(ts, vs[0]);
      SelectAllMeans(ts, vs[1..]);
    }
  }

  /** A prefix is taken if and only if it is a pointer. */
  lemma PrefixMeans(s: bytes)
    ensures Prefix(s).Some? <==> exists ts :: IsPointer(s, ts)
    ensures forall ts :: IsPointer(s, ts) ==> Prefix(s) == Some(ClassifiedAll(ts))
  {
    hide ParsePointer, IsPointer, ClassifiedAll;
    if ParsePointer(s).Some? { PointerMeans(s, ParsePointer(s).value); }
    forall ts | IsPointer(s, ts) ensures ParsePointer(s) == Some(ts) { PointerMeans(s, ts); }
  }

  /** Over any values, the filter for a pointer yields what its tokens choose from them. */
  lemma FilterChooses(s: bytes, ts: seq<bytes>, vs: seq<Json>)
    requires IsPointer(s, ts)
    ensures Prefix(s).Some? && Filter(Prefix(s).value, NoItems, FlattenAll(vs)) == ChosenAll(ts, vs)
  {
    hide IsPointer, Filter, SelectAll, ChosenAll, ClassifiedAll, FlattenAll;
    PrefixMeans(s);
    ItemsCorrect.FilterSelects(ClassifiedAll(ts), NoItems, vs);
    SelectAllMeans(ts, vs);
  }

  // ---- a selection and a lookup ----

  /** Every hop on an object is by a name. */
  predicate NamesOnly(v: Json, ts: seq<bytes>)
    requires Lookup(v, ts).Done?
    decreases |ts|
  {
    |ts| == 0 || ((v.Obj? ==> IsName(ts[0])) && NamesOnly(Child(v, ts[0]).value, ts[1..]))
  }

  /** A lookup reads the token as the filter does: it is not `*`, and an index is one for both. */
  predicate Strict(t: bytes) { !IsStar(t) && (IsIndex(t) ==> ArrayIndex(t).Some?) }

  /**
   On distinct keys, a path that resolves selects the events of the value a lookup finds there, unless a hop on an
   object is by `*` or by digits, which the filter takes for array hops only. A path without `*` and without leading
   zeros that does not resolve selects nothing.
   */
  lemma {:induction false} SelectionIsLookup(ts: seq<bytes>, v: Json)
    requires WellKeyed(v)
    ensures Lookup(v, ts).Done? ==> Chosen(ts, v) == if NamesOnly(v, ts) then Flatten(Lookup(v, ts).value) else []
    ensures Lookup(v, ts).Refused? && (forall i :: 0 <= i < |ts| ==> Strict(ts[i])) ==> Chosen(ts, v) == []
    decreases |ts|
  {
    hide IsStar, IsDecimal, DecimalValue, ArrayIndex, StrictIndex, FirstMatch, Flatten;
    if |ts| > 0 {
      var t := ts[0];
      StrictIsIndex(t);
      if v.Obj? {
        NamedOnce(t, ts[1..], v, 0);
        var p := FirstMatch(v.members, t);
        if p < |v.members| { SelectionIsLookup(ts[1..], v.members[p].value); }
      } else if v.Arr? && IsIndex(t) && DecimalValue(t) < |v.items| {
        SelectionIsLookup(ts[1..], v.items[DecimalValue(t)]);
      }
    }
  }

  lemma StrictIsIndex(t: bytes)
    ensures StrictIndex(t).Some? ==> IsIndex(t) && !IsStar(t) && StrictIndex(t) == Some(DecimalValue(t))
    ensures Strict(t) && StrictIndex(t).None? ==> !IsIndex(t) && !IsStar(t)
  {
    IndexMeans(t);
  }

  /** With distinct keys a name leads to one member, or to none. */
  lemma {:induction false} NamedOnce(name: bytes, rest: seq<bytes>, v: Json, k: nat)
    requires v.Obj? && DistinctKeys(v.members) && k <= |v.members|
    ensures var p := FirstMatch(v.members, name);
      ChosenMembers(name, rest, v, k) == if k <= p < |v.members| then Chosen(rest, v.members[p].value) else []
    decreases |v.members| - k
  {
    hide Chosen, FirstMatch;
    if k < |v.members| { NamedOnce(name, rest, v, k + 1); }
  }
}
