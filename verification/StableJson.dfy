/**
 * stableConfigJson: JavaScript values are rebuilt with sorted keys and without undefined members,
 * then printed. The text is used throughout as an equality test, so it has to decide equality.
 */
module StableJson {
  import opened Wrappers
  import opened Ordering
  import opened Json

  /** A JavaScript value built from JSON types; objects list their members in insertion order. */
  datatype Js =
    | Undefined
    | JsNull
    | JsBool(b: bool)
    | JsNum(n: int)
    | JsStr(s: string)
    | JsArr(items: seq<Js>)
    | JsObj(members: seq<Member>)

  datatype Member = Member(key: string, value: Js)

  predicate DistinctKeys(ms: seq<Member>) {
    forall i, j :: 0 <= i < j < |ms| ==> ms[i].key != ms[j].key
  }

  /** Every object, at every depth, has each key once: what JavaScript objects guarantee. */
  predicate WellFormed(j: Js) {
    match j
    case JsArr(items) => forall i :: 0 <= i < |items| ==> WellFormed(items[i])
    case JsObj(ms) => DistinctKeys(ms) && forall i :: 0 <= i < |ms| ==> WellFormed(ms[i].value)
    case _ => true
  }

  function Keys(ms: seq<Member>): set<string> {
    set i | 0 <= i < |ms| :: ms[i].key
  }

  function Lookup(ms: seq<Member>, k: string): (v: Js)
    requires k in Keys(ms)
    ensures exists i :: 0 <= i < |ms| && ms[i] == Member(k, v)
  {
    if ms[0].key == k then
      assert ms[0] == Member(k, ms[0].value);
      ms[0].value
    else
      assert k in Keys(ms[1..]) by {
        var i :| 0 <= i < |ms| && ms[i].key == k;
        assert ms[1..][i - 1].key == k;
      }
      var v := Lookup(ms[1..], k);
      assert exists i :: 0 <= i < |ms| && ms[i] == Member(k, v) by {
        var i :| 0 <= i < |ms[1..]| && ms[1..][i] == Member(k, v);
        assert ms[i + 1] == Member(k, v);
      }
      v
  }

  // ---- The value a JavaScript value stands for ------------------------------------------

  /** The keys whose value is not undefined. */
  function DefinedKeys(ms: seq<Member>): set<string> {
    set k | k in Keys(ms) && Lookup(ms, k) != Undefined
  }

  /**
   * The JSON value that `j` denotes, None for undefined: key order is forgotten, undefined members
   * are absent, an undefined array item is null.
   */
  function Meaning(j: Js): (v: Option<Value>)
    ensures v.None? <==> j.Undefined?
    decreases j, 0
  {
    match j
    case Undefined => None
    case JsNull => Some(Null)
    case JsBool(b) => Some(Bool(b))
    case JsNum(n) => Some(Num(n))
    case JsStr(s) => Some(Str(s))
    case JsArr(items) => Some(Arr(seq(|items|, i requires 0 <= i < |items| => ItemMeaning(items[i]))))
    case JsObj(ms) => Some(Obj(map k | k in DefinedKeys(ms) :: Meaning(Lookup(ms, k)).value))
  }

  function ItemMeaning(j: Js): Value
    decreases j, 1
  {
    match Meaning(j)
    case Some(v) => v
    case None => Null
  }

  // ---- What the source computes ---------------------------------------------------------

  function Filter(ks: seq<string>, keep: set<string>): (r: seq<string>)
    ensures forall k :: k in r <==> k in ks && k in keep
  {
    if ks == [] then []
    else
      var rest := Filter(ks[1..], keep);
      assert forall k :: k in ks <==> k == ks[0] || k in ks[1..];
      if ks[0] in keep then [ks[0]] + rest else rest
  }

  /** The own keys of an object whose keys were inserted in the order `ks`: array indices come first. */
  function OwnKeys(ks: seq<string>): (r: seq<string>)
    ensures forall k :: k in r <==> k in ks
  {
    NumericIsTotal();
    var indices := set k | k in ks && IsArrayIndex(k);
    var first := Ascending(indices, NumericLess);
    assert forall k :: k in first <==> k in Elements(first);
    first + Filter(ks, Elements(ks) - indices)
  }

  /** The inner function `sort`: keys sorted, undefined members dropped, at every depth. */
  function Sorted(j: Js): (r: Js)
    ensures r.Undefined? <==> j.Undefined?
  {
    match j
    case JsArr(items) => JsArr(seq(|items|, i requires 0 <= i < |items| => Sorted(items[i])))
    case JsObj(ms) =>
      var order := CodeUnitOrder(Keys(ms));
      var ks := OwnKeys(Filter(order, DefinedKeys(ms)));
      JsObj(seq(|ks|, i requires 0 <= i < |ks| =>
        assert ks[i] in ks;
        Member(ks[i], Sorted(Lookup(ms, ks[i])))))
    case _ => j
  }

  /** JSON.stringify: no text for undefined, no text for undefined members, null for undefined items. */
  function Stringify(j: Js): (r: Option<string>)
    ensures r.None? <==> j.Undefined?
    decreases j, 0
  {
    match j
    case Undefined => None
    case JsNull => Some("null")
    case JsBool(b) => Some(if b then "true" else "false")
    case JsNum(n) => Some(NumberText(n))
    case JsStr(s) => Some(Quote(s))
    case JsArr(items) => Some("[" + StringifyItems(items, true))
    case JsObj(ms) => Some("{" + StringifyMembers(ms, true))
  }

  function StringifyItems(items: seq<Js>, first: bool): string
    decreases items
  {
    if items == [] then "]"
    else
      (if first then "" else ",")
      + (match Stringify(items[0]) case Some(t) => t case None => "null")
      + StringifyItems(items[1..], false)
  }

  function StringifyMembers(ms: seq<Member>, first: bool): string
    decreases ms
  {
    if ms == [] then "}"
    else
      match Stringify(ms[0].value)
      case None => StringifyMembers(ms[1..], first)
      case Some(t) =>
        (if first then "" else ",") + Quote(ms[0].key) + ":" + t + StringifyMembers(ms[1..], false)
  }

  function StableConfigJson(j: Js): Option<string> {
    Stringify(Sorted(j))
  }

  // ---- The text is the canonical text of the meaning ------------------------------------

  lemma {:induction false} FilterSorted(ks: seq<string>, keep: set<string>, less: Less)
    requires SortedBy(ks, less)
    ensures SortedBy(Filter(ks, keep), less)
  {
    if ks != [] {
      FilterSorted(ks[1..], keep, less);
      var rest := Filter(ks[1..], keep);
      forall i | 0 <= i < |rest|
        ensures less(ks[0], rest[i])
      {
        assert rest[i] in ks[1..];
      }
    }
  }

  /** Sorting, filtering and re-inserting lists the defined keys in own-key order. */
  lemma SortedKeys(ms: seq<Member>)
    ensures OwnKeys(Filter(CodeUnitOrder(Keys(ms)), DefinedKeys(ms))) == OwnKeyOrder(DefinedKeys(ms))
  {
    CodeUnitIsTotal();
    var sorted, keep := Ascending(Keys(ms), CodeUnitLess), DefinedKeys(ms);
    var kept := Filter(sorted, keep);
    FilterSorted(sorted, keep, CodeUnitLess);
    assert forall k :: k in kept <==> k in keep by {
      assert forall k :: k in sorted <==> k in Elements(sorted);
    }
    var indices := set k | k in kept && IsArrayIndex(k);
    assert indices == set k | k in keep && IsArrayIndex(k);
    var others := Filter(kept, Elements(kept) - indices);
    FilterSorted(kept, Elements(kept) - indices, CodeUnitLess);
    var expected := Ascending(keep - indices, CodeUnitLess);
    assert Elements(others) == keep - indices;
    SortedUnique(others, expected, CodeUnitLess);
  }

  /** `m` is the member `k` of `v`, with a value that prints as the canonical text. */
  ghost predicate PrintsAs(m: Member, k: string, v: Value) {
    v.Obj? && k in v.members && m.key == k && Stringify(m.value) == Some(Text(v.members[k], OwnKeyOrder))
  }

  ghost predicate ItemPrintsAs(item: Js, sorted: Js, v: Value) {
    if item.Undefined? then sorted.Undefined? && v.Null?
    else Stringify(sorted) == Some(Text(v, OwnKeyOrder))
  }

  lemma {:induction false} SortedText(j: Js)
    requires WellFormed(j) && !j.Undefined?
    ensures StableConfigJson(j) == Some(Text(Meaning(j).value, OwnKeyOrder))
    decreases j, 1
  {
    match j
    case JsArr(items) => SortedArrayText(j);
    case JsObj(ms) => SortedObjectText(j);
    case _ =>
  }

  lemma {:induction false} SortedArrayText(j: Js)
    requires WellFormed(j) && j.JsArr?
    ensures StableConfigJson(j) == Some(Text(Meaning(j).value, OwnKeyOrder))
    decreases j, 0
  {
    var items, sorted, vs := j.items, Sorted(j).items, Meaning(j).value.items;
    forall i | 0 <= i < |items|
      ensures ItemPrintsAs(items[i], sorted[i], vs[i])
    {
      assert sorted[i] == Sorted(items[i]) && vs[i] == ItemMeaning(items[i]);
      if !items[i].Undefined? {
        SortedText(items[i]);
      }
    }
    SortedItems(items, sorted, vs, true);
  }

  /** The members of a sorted object: the defined ones, in own-key order, each sorted. */
  lemma SortedShape(ms: seq<Member>)
    ensures var ks, sorted := OwnKeyOrder(DefinedKeys(ms)), Sorted(JsObj(ms)).members;
      |sorted| == |ks| && forall i :: 0 <= i < |ks| ==> IsSortedMember(ms, ks[i], sorted[i])
  {
    SortedKeys(ms);
    hide OwnKeyOrder, CodeUnitOrder, OwnKeys, Filter, SortedBy, Distinct;
    var ks := OwnKeyOrder(DefinedKeys(ms));
    forall i | 0 <= i < |ks|
      ensures ks[i] in DefinedKeys(ms)
    {
      assert ks[i] in Elements(ks);
    }
  }

  ghost predicate IsSortedMember(ms: seq<Member>, k: string, m: Member) {
    k in DefinedKeys(ms) && m == Member(k, Sorted(Lookup(ms, k)))
  }

  /** The text of an object, given its keys in order. */
  lemma ObjectText(v: Value, ks: seq<string>)
    requires v.Obj? && ks == OwnKeyOrder(v.members.Keys)
    ensures forall k :: k in ks ==> k in v.members
    ensures Text(v, OwnKeyOrder) == "{" + MembersText(v.members, ks, OwnKeyOrder, v, true)
  {
    hide OwnKeyOrder, MembersText, SortedBy, Distinct;
    forall k | k in ks
      ensures k in v.members
    {
      assert k in Elements(ks);
    }
    assert KeysOf(v.members, OwnKeyOrder) == ks;
  }

  lemma {:induction false} SortedObjectText(j: Js)
    requires WellFormed(j) && j.JsObj?
    ensures StableConfigJson(j) == Some(Text(Meaning(j).value, OwnKeyOrder))
    decreases j, 0
  {
    hide OwnKeyOrder, SortedBy, Distinct, MembersText, StringifyMembers;
    var ms, v, sorted := j.members, Meaning(j).value, Sorted(j).members;
    var ks := OwnKeyOrder(DefinedKeys(ms));
    assert v.members.Keys == DefinedKeys(ms);
    SortedShape(ms);
    ObjectText(v, ks);
    hide Sorted;
    forall i | 0 <= i < |ks|
      ensures PrintsAs(sorted[i], ks[i], v)
    {
      assert IsSortedMember(ms, ks[i], sorted[i]);
      SortedText(Lookup(ms, ks[i]));
    }
    SortedMembers(sorted, v, ks, true);
  }

  lemma {:induction false} SortedItems(items: seq<Js>, sorted: seq<Js>, vs: seq<Value>, first: bool)
    requires |items| == |sorted| == |vs|
    requires forall i :: 0 <= i < |items| ==> ItemPrintsAs(items[i], sorted[i], vs[i])
    ensures StringifyItems(sorted, first) == ItemsText(vs, OwnKeyOrder, first)
  {
    if items != [] {
      SortedItems(items[1..], sorted[1..], vs[1..], false);
    }
  }

  lemma {:induction false} SortedMembers(sorted: seq<Member>, v: Value, ks: seq<string>, first: bool)
    requires v.Obj? && |sorted| == |ks| && forall k :: k in ks ==> k in v.members
    requires forall i :: 0 <= i < |ks| ==> PrintsAs(sorted[i], ks[i], v)
    ensures StringifyMembers(sorted, first) == MembersText(v.members, ks, OwnKeyOrder, v, first)
  {
    if ks != [] {
      SortedMembers(sorted[1..], v, ks[1..], false);
    }
  }

  // ---- Equality of JavaScript values ----------------------------------------------------

  /**
   * Equality up to the order of members and undefined ones: each defined member of either object has an equal
   * one of its key in the other, and an undefined array item is as good as null.
   */
  ghost predicate Same(a: Js, b: Js)
    decreases a, 0
  {
    match a
    case JsArr(xs) => b.JsArr? && |b.items| == |xs| && forall i :: 0 <= i < |xs| ==> SameItem(xs[i], b.items[i])
    case JsObj(ms) => b.JsObj? && AllHave(ms, b.members) && AllOf(ms, b.members)
    case _ => a == b
  }

  /** Every defined member of the first has an equal one in the second. */
  ghost predicate AllHave(ms: seq<Member>, ns: seq<Member>)
    decreases ms, 0
  {
    forall i :: 0 <= i < |ms| && !ms[i].value.Undefined? ==> exists j :: 0 <= j < |ns| && SameMember(ms[i], ns[j])
  }

  /** Every defined member of the second has an equal one in the first. */
  ghost predicate AllOf(ms: seq<Member>, ns: seq<Member>)
    decreases ms, 0
  {
    forall j :: 0 <= j < |ns| && !ns[j].value.Undefined? ==> exists i :: 0 <= i < |ms| && SameMember(ms[i], ns[j])
  }

  ghost predicate SameItem(x: Js, y: Js)
    decreases x, 1
  {
    if x.Undefined? || x.JsNull? then y.Undefined? || y.JsNull? else Same(x, y)
  }

  ghost predicate SameMember(m: Member, n: Member)
    decreases m
  {
    m.key == n.key && Same(m.value, n.value)
  }

  lemma LookupIs(ms: seq<Member>, i: nat)
    requires DistinctKeys(ms) && i < |ms|
    ensures ms[i].key in Keys(ms) && Lookup(ms, ms[i].key) == ms[i].value
    ensures ms[i].key in DefinedKeys(ms) <==> !ms[i].value.Undefined?
  {
    var j :| 0 <= j < |ms| && ms[j] == Member(ms[i].key, Lookup(ms, ms[i].key));
    assert i == j;
  }

  /** Such values have the same meaning, and only they. */
  lemma {:induction false} SameExactly(a: Js, b: Js)
    requires WellFormed(a) && WellFormed(b)
    ensures Same(a, b) <==> Meaning(a) == Meaning(b)
    decreases a, 2
  {
    if a.JsArr? && b.JsArr? {
      SameArrays(a, b);
    } else if a.JsObj? && b.JsObj? {
      SameObjects(a, b);
    }
  }

  lemma {:induction false} SameArrays(a: Js, b: Js)
    requires WellFormed(a) && WellFormed(b) && a.JsArr? && b.JsArr?
    ensures Same(a, b) <==> Meaning(a) == Meaning(b)
    decreases a, 1
  {
    var xs, ys := a.items, b.items;
    ArrayMeaning(xs);
    ArrayMeaning(ys);
    var vs, ws := Meaning(a).value.items, Meaning(b).value.items;
    if |xs| == |ys| {
      forall i | 0 <= i < |xs|
        ensures SameItem(xs[i], ys[i]) <==> vs[i] == ws[i]
      {
        SameExactly(xs[i], ys[i]);
      }
      hide Meaning, SameItem;
      assert vs == ws <==> forall i :: 0 <= i < |xs| ==> SameItem(xs[i], ys[i]);
    }
  }

  lemma ArrayMeaning(items: seq<Js>)
    ensures var v := Meaning(JsArr(items));
      && v.Some? && v.value.Arr? && |v.value.items| == |items|
      && forall i :: 0 <= i < |items| ==> v.value.items[i] == ItemMeaning(items[i])
  {
  }

  lemma {:induction false} SameObjects(a: Js, b: Js)
    requires WellFormed(a) && WellFormed(b) && a.JsObj? && b.JsObj?
    ensures Same(a, b) <==> Meaning(a) == Meaning(b)
    decreases a, 1
  {
    var ms, ns := a.members, b.members;
    forall i, j | 0 <= i < |ms| && 0 <= j < |ns|
      ensures Same(ms[i].value, ns[j].value) <==> Meaning(ms[i].value) == Meaning(ns[j].value)
    {
      SameExactly(ms[i].value, ns[j].value);
    }
    assert Same(a, b) <==> AllHave(ms, ns) && AllOf(ms, ns);
    hide Same, Meaning, AllHave, AllOf;
    assert Agree(ms, ns);
    if Same(a, b) {
      SameMeansEqual(ms, ns);
    }
    if Meaning(a) == Meaning(b) {
      EqualMeansSame(ms, ns);
    }
  }

  lemma ObjectMeaning(ms: seq<Member>)
    requires DistinctKeys(ms)
    ensures Meaning(JsObj(ms)).Some? && Meaning(JsObj(ms)).value.Obj?
    ensures var v := Meaning(JsObj(ms)).value.members;
      && (forall i :: 0 <= i < |ms| && !ms[i].value.Undefined? ==>
            ms[i].key in v && Some(v[ms[i].key]) == Meaning(ms[i].value))
      && (forall k :: k in v ==> exists i :: 0 <= i < |ms| && ms[i].key == k && !ms[i].value.Undefined?)
  {
    var v := Meaning(JsObj(ms)).value.members;
    assert v.Keys == DefinedKeys(ms);
    forall i | 0 <= i < |ms| && !ms[i].value.Undefined?
      ensures ms[i].key in v && Some(v[ms[i].key]) == Meaning(ms[i].value)
    {
      LookupIs(ms, i);
    }
    forall k | k in v
      ensures exists i :: 0 <= i < |ms| && ms[i].key == k && !ms[i].value.Undefined?
    {
      var i :| 0 <= i < |ms| && ms[i] == Member(k, Lookup(ms, k));
    }
  }

  /** The values of equal members are related as their meanings are. */
  ghost predicate Agree(ms: seq<Member>, ns: seq<Member>) {
    forall i, j :: 0 <= i < |ms| && 0 <= j < |ns| ==>
      (Same(ms[i].value, ns[j].value) <==> Meaning(ms[i].value) == Meaning(ns[j].value))
  }

  lemma SameMemberCarries(ms: seq<Member>, ns: seq<Member>, i: nat, j: nat)
    requires DistinctKeys(ms) && DistinctKeys(ns) && Agree(ms, ns) && i < |ms| && j < |ns|
    requires SameMember(ms[i], ns[j]) && !(ms[i].value.Undefined? && ns[j].value.Undefined?)
    ensures var k, v, w := ms[i].key, Meaning(JsObj(ms)).value.members, Meaning(JsObj(ns)).value.members;
      k == ns[j].key && k in v && k in w && v[k] == w[k]
  {
    ObjectMeaning(ms);
    ObjectMeaning(ns);
    assert Meaning(ms[i].value) == Meaning(ns[j].value);
    hide Meaning, DistinctKeys, Same;
  }

  lemma DefinedMember(ms: seq<Member>, k: string) returns (i: nat)
    requires DistinctKeys(ms) && k in Meaning(JsObj(ms)).value.members
    ensures i < |ms| && ms[i].key == k && !ms[i].value.Undefined?
  {
    ObjectMeaning(ms);
    hide Meaning;
    i :| 0 <= i < |ms| && ms[i].key == k && !ms[i].value.Undefined?;
  }

  lemma SameMeansEqual(ms: seq<Member>, ns: seq<Member>)
    requires DistinctKeys(ms) && DistinctKeys(ns) && Agree(ms, ns) && AllHave(ms, ns) && AllOf(ms, ns)
    ensures Meaning(JsObj(ms)) == Meaning(JsObj(ns))
  {
    hide *;
    ObjectMeaning(ms);
    ObjectMeaning(ns);
    var v, w := Meaning(JsObj(ms)).value.members, Meaning(JsObj(ns)).value.members;
    forall k
      ensures k in v ==> k in w && w[k] == v[k]
      ensures k in w ==> k in v
    {
      if k in v {
        MeaningCarries(ms, ns, k);
      }
      if k in w {
        MeaningComes(ms, ns, k);
      }
    }
    assert v == w;
  }

  lemma MeaningCarries(ms: seq<Member>, ns: seq<Member>, k: string)
    requires DistinctKeys(ms) && DistinctKeys(ns) && Agree(ms, ns) && AllHave(ms, ns)
    requires k in Meaning(JsObj(ms)).value.members
    ensures k in Meaning(JsObj(ns)).value.members
    ensures Meaning(JsObj(ns)).value.members[k] == Meaning(JsObj(ms)).value.members[k]
  {
    hide Meaning, DistinctKeys, SameMember, Agree;
    var i := DefinedMember(ms, k);
    var j :| 0 <= j < |ns| && SameMember(ms[i], ns[j]);
    SameMemberCarries(ms, ns, i, j);
  }

  lemma MeaningComes(ms: seq<Member>, ns: seq<Member>, k: string)
    requires DistinctKeys(ms) && DistinctKeys(ns) && Agree(ms, ns) && AllOf(ms, ns)
    requires k in Meaning(JsObj(ns)).value.members
    ensures k in Meaning(JsObj(ms)).value.members
  {
    hide Meaning, DistinctKeys, SameMember, Agree;
    var j := DefinedMember(ns, k);
    var i :| 0 <= i < |ms| && SameMember(ms[i], ns[j]);
    SameMemberCarries(ms, ns, i, j);
  }

  lemma EqualMeansSame(ms: seq<Member>, ns: seq<Member>)
    requires DistinctKeys(ms) && DistinctKeys(ns) && Agree(ms, ns) && Meaning(JsObj(ms)) == Meaning(JsObj(ns))
    ensures AllHave(ms, ns) && AllOf(ms, ns)
  {
    hide Meaning, DistinctKeys;
    forall i | 0 <= i < |ms| && !ms[i].value.Undefined?
      ensures exists j :: 0 <= j < |ns| && SameMember(ms[i], ns[j])
    {
      var j := EqualPartner(ms, ns, i);
      SameValue(ms, ns, i, j);
    }
    forall j | 0 <= j < |ns| && !ns[j].value.Undefined?
      ensures exists i :: 0 <= i < |ms| && SameMember(ms[i], ns[j])
    {
      var i := EqualPartner(ns, ms, j);
      SameValue(ms, ns, i, j);
    }
  }

  lemma EqualPartner(ms: seq<Member>, ns: seq<Member>, i: nat) returns (j: nat)
    requires DistinctKeys(ms) && DistinctKeys(ns) && Meaning(JsObj(ms)) == Meaning(JsObj(ns))
    requires i < |ms| && !ms[i].value.Undefined?
    ensures j < |ns| && ns[j].key == ms[i].key && !ns[j].value.Undefined?
    ensures Meaning(ms[i].value) == Meaning(ns[j].value)
  {
    ObjectMeaning(ms);
    ObjectMeaning(ns);
    hide Meaning, DistinctKeys;
    j := DefinedMember(ns, ms[i].key);
  }

  lemma SameValue(ms: seq<Member>, ns: seq<Member>, i: nat, j: nat)
    requires Agree(ms, ns) && i < |ms| && j < |ns|
    requires ms[i].key == ns[j].key && Meaning(ms[i].value) == Meaning(ns[j].value)
    ensures SameMember(ms[i], ns[j])
  {
  }

  /**
   * Two values have the same stable text exactly when they are equal up to key order and undefined members
   * at every depth (and undefined items read as null), which is when they denote the same JSON value.
   */
  lemma StableTextDecidesEquality(a: Js, b: Js)
    requires WellFormed(a) && WellFormed(b)
    ensures StableConfigJson(a) == StableConfigJson(b) <==> Same(a, b)
    ensures Same(a, b) <==> Meaning(a) == Meaning(b)
  {
    SameExactly(a, b);
    hide Same;
    if !a.Undefined? && !b.Undefined? {
      SortedText(a);
      SortedText(b);
      TextInjective(Meaning(a).value, Meaning(b).value, OwnKeyOrder);
    }
  }

  /** Reordering the members of an object never changes its stable text. */
  lemma StableTextIgnoresKeyOrder(ms: seq<Member>, ns: seq<Member>)
    requires WellFormed(JsObj(ms)) && WellFormed(JsObj(ns))
    requires Elements(ms) == Elements(ns)
    ensures StableConfigJson(JsObj(ms)) == StableConfigJson(JsObj(ns))
  {
    forall k
      ensures k in Keys(ms) <==> k in Keys(ns)
      ensures k in Keys(ms) ==> Lookup(ms, k) == Lookup(ns, k)
    {
      SameLookup(ms, ns, k);
      SameLookup(ns, ms, k);
    }
    var a, b := JsObj(ms), JsObj(ns);
    assert Keys(ms) == Keys(ns);
    assert DefinedKeys(ms) == DefinedKeys(ns);
    assert Meaning(a).value.members == Meaning(b).value.members;
    StableTextDecidesEquality(a, b);
  }

  lemma SameLookup(ms: seq<Member>, ns: seq<Member>, k: string)
    requires DistinctKeys(ms) && DistinctKeys(ns) && Elements(ms) == Elements(ns)
    ensures k in Keys(ms) ==> k in Keys(ns) && Lookup(ms, k) == Lookup(ns, k)
  {
    if k in Keys(ms) {
      var m := Member(k, Lookup(ms, k));
      assert m in Elements(ms);
      assert m in ns;
      var i :| 0 <= i < |ns| && ns[i] == m;
      var n := Lookup(ns, k);
      var j :| 0 <= j < |ns| && ns[j] == Member(k, n);
      assert i == j;
    }
  }
}
