/**
 * configChanges: the structural difference of two configuration values, reported as pointers
 * (sections 3 and 4 of RFC 6901) with the values that changed, secrets redacted.
 */
module ConfigDiff {
  import opened Wrappers
  import opened Ordering
  import opened Json
  import opened Pointers
  import opened Strings
  import opened SensitivePaths
  import Decimal

  // ---- Navigation -----------------------------------------------------------------------

  /** `value?.[segment]`, where an array index is written as a canonical numeral. */
  function Child(v: Option<Value>, s: string): Option<Value> {
    match v
    case Some(Obj(ms)) => if s in ms then Some(ms[s]) else None
    case Some(Arr(items)) =>
      if Decimal.Canonical(s) && Decimal.Value(s) < |items| then Some(items[Decimal.Value(s)]) else None
    case _ => None
  }

  function At(v: Option<Value>, p: Path): Option<Value>
    decreases |p|
  {
    if p == [] then v else At(Child(v, p[0]), p[1..])
  }

  /** The primitive value at a path, if there is one. */
  function Leaf(v: Option<Value>, p: Path): Option<Value> {
    match At(v, p)
    case Some(w) => if IsPrimitive(w) then Some(w) else None
    case None => None
  }

  // ---- The difference -------------------------------------------------------------------

  /** `Foreign` is a plain entry whose missing side is reported as the function that objects inherit as `name`. */
  datatype Entry =
    | Plain(at: Path, before: Option<Value>, after: Option<Value>)
    | Redacted(at: Path, before: Option<Value>, after: Option<Value>)
    | Changed(at: Path)
    | Foreign(at: Path, name: string, before: Option<Value>, after: Option<Value>)

  /** Which places are secret, and which names reading an object that lacks them finds nevertheless. */
  datatype Rules = Rules(secret: Path -> bool, inherited: set<string>)

  function Indices(n: nat): (ss: seq<string>)
    ensures |ss| == n && forall i :: 0 <= i < n ==> ss[i] == Decimal.Digits(i)
  {
    if n == 0 then [] else Indices(n - 1) + [Decimal.Digits(n - 1)]
  }

  function KeySet(v: Option<Value>): set<string> {
    if v.Some? && v.value.Obj? then v.value.members.Keys else {}
  }

  function Length(v: Option<Value>): nat {
    if v.Some? && v.value.Arr? then |v.value.items| else 0
  }

  predicate IsObject(v: Option<Value>) {
    v.Some? && v.value.Obj?
  }

  predicate IsArray(v: Option<Value>) {
    v.Some? && v.value.Arr?
  }

  predicate HasParts(v: Option<Value>) {
    IsObject(v) || IsArray(v)
  }

  function Max(a: nat, b: nat): nat {
    if a < b then b else a
  }

  /** The parts to compare one by one, when the two values can be compared part by part. */
  function Segments(l: Option<Value>, r: Option<Value>): Option<seq<string>> {
    if (IsObject(l) || l.None?) && (IsObject(r) || r.None?) && (IsObject(l) || IsObject(r)) then
      Some(CodeUnitOrder(KeySet(l) + KeySet(r)))
    else if (IsArray(l) || l.None?) && (IsArray(r) || r.None?) && (IsArray(l) || IsArray(r)) then
      Some(Indices(Max(Length(l), Length(r))))
    else None
  }

  function Hidden(v: Option<Value>): Option<Value> {
    if v.None? then None else Some(Str("[redacted]"))
  }

  function Inner(v: Option<Value>): Value {
    if v.Some? then v.value else Null
  }

  /** Of two objects one has the member `s`; reading it from the other finds an inherited function. */
  predicate Inherits(l: Option<Value>, r: Option<Value>, s: string, rules: Rules) {
    IsObject(l) && IsObject(r) && s in rules.inherited && (s in l.value.members) != (s in r.value.members)
  }

  function Diff(l: Option<Value>, r: Option<Value>, at: Path, rules: Rules): seq<Entry>
    decreases l.Some?, r.Some?, Inner(l), Inner(r)
  {
    if l == r then []
    else if rules.secret(at) then [Redacted(at, Hidden(l), Hidden(r))]
    else
      match Segments(l, r)
      case Some(segments) => DiffEach(l, r, segments, at, rules)
      case None =>
        if IsArray(l) || IsArray(r) || IsObject(l) || IsObject(r) then [Changed(at)]
        else [Plain(at, l, r)]
  }

  /** A member compared with a function, which is neither undefined nor an object. */
  function DiffInherited(l: Option<Value>, r: Option<Value>, at: Path, name: string, rules: Rules): seq<Entry> {
    if rules.secret(at) then [Redacted(at, Some(Str("[redacted]")), Some(Str("[redacted]")))]
    else if HasParts(l) || HasParts(r) then [Changed(at)]
    else [Foreign(at, name, l, r)]
  }

  function DiffPart(l: Option<Value>, r: Option<Value>, s: string, at: Path, rules: Rules): seq<Entry>
    requires l.Some? || r.Some?
    decreases l.Some?, r.Some?, Inner(l), Inner(r), 0
  {
    if Inherits(l, r, s, rules) then DiffInherited(Child(l, s), Child(r, s), at + [s], s, rules)
    else Diff(Child(l, s), Child(r, s), at + [s], rules)
  }

  function DiffEach(l: Option<Value>, r: Option<Value>, segments: seq<string>, at: Path, rules: Rules): seq<Entry>
    requires l.Some? || r.Some?
    decreases l.Some?, r.Some?, Inner(l), Inner(r), |segments|
  {
    if segments == [] then []
    else DiffPart(l, r, segments[0], at, rules) + DiffEach(l, r, segments[1..], at, rules)
  }

  // ---- Where entries come from ----------------------------------------------------------

  predicate Extends(p: Path, q: Path) {
    |q| <= |p| && p[..|q|] == q
  }

  lemma ThroughHead(at: Path, p: Path)
    requires p != []
    ensures at + p == at + [p[0]] + p[1..]
  {
  }

  lemma ExtendsChild(at: Path, s: string, p: Path)
    requires Extends(p, at + [s])
    ensures |p| > |at| && p[|at|] == s && Extends(p, at)
  {
    assert p[..|at| + 1][|at|] == s;
    assert p[..|at|] == p[..|at| + 1][..|at|];
  }

  lemma {:induction false} EntriesExtend(l: Option<Value>, r: Option<Value>, at: Path, rules: Rules, e: Entry)
    requires e in Diff(l, r, at, rules)
    ensures Extends(e.at, at)
    decreases l.Some?, r.Some?, Inner(l), Inner(r)
  {
    if l != r && !rules.secret(at) && Segments(l, r).Some? {
      var s := EntryOrigin(l, r, Segments(l, r).value, at, rules, e);
      PartExtends(l, r, s, at, rules, e);
      ExtendsChild(at, s, e.at);
    }
  }

  lemma {:induction false} PartExtends(l: Option<Value>, r: Option<Value>, s: string, at: Path, rules: Rules, e: Entry)
    requires (l.Some? || r.Some?) && e in DiffPart(l, r, s, at, rules)
    ensures Extends(e.at, at + [s])
    decreases l.Some?, r.Some?, Inner(l), Inner(r), 0
  {
    if !Inherits(l, r, s, rules) {
      EntriesExtend(Child(l, s), Child(r, s), at + [s], rules, e);
    }
  }

  lemma {:induction false} EntryOrigin(l: Option<Value>, r: Option<Value>, segments: seq<string>, at: Path,
                                       rules: Rules, e: Entry) returns (s: string)
    requires l.Some? || r.Some?
    requires e in DiffEach(l, r, segments, at, rules)
    ensures s in segments && e in DiffPart(l, r, s, at, rules)
  {
    s := segments[0];
    if e !in DiffPart(l, r, s, at, rules) {
      s := EntryOrigin(l, r, segments[1..], at, rules, e);
    }
  }

  lemma {:induction false} EachIncludes(l: Option<Value>, r: Option<Value>, segments: seq<string>, at: Path,
                                        rules: Rules, s: string, e: Entry)
    requires l.Some? || r.Some?
    requires s in segments && e in DiffPart(l, r, s, at, rules)
    ensures e in DiffEach(l, r, segments, at, rules)
  {
    if s != segments[0] {
      EachIncludes(l, r, segments[1..], at, rules, s, e);
    }
  }

  lemma IndexSegment(n: nat, s: string)
    ensures s in Indices(n) <==> Decimal.Canonical(s) && Decimal.Value(s) < n
  {
    assert Decimal.Canonical(s) && Decimal.Value(s) < n ==> Indices(n)[Decimal.Value(s)] in Indices(n);
    if s in Indices(n) {
      var i :| 0 <= i < n && s == Decimal.Digits(i);
      Decimal.DigitsValue(i);
    } else if Decimal.Canonical(s) && Decimal.Value(s) < n {
      Decimal.ValueDigits(s);
    }
  }

  /** Every part of either value is compared, and nothing else. */
  lemma SegmentsCover(l: Option<Value>, r: Option<Value>, s: string)
    requires Segments(l, r).Some?
    ensures s in Segments(l, r).value <==> Child(l, s).Some? || Child(r, s).Some?
  {
    var ks := Segments(l, r).value;
    if IsObject(l) || IsObject(r) {
      assert s in ks <==> s in Elements(ks);
    } else {
      IndexSegment(Max(Length(l), Length(r)), s);
    }
  }

  // ---- The report determines the new leaves ---------------------------------------------

  ghost predicate Covered(es: seq<Entry>, p: Path) {
    exists e :: e in es && !e.Plain? && Extends(p, e.at)
  }

  ghost predicate Listed(es: seq<Entry>, p: Path) {
    exists e :: e in es && e.Plain? && e.at == p
  }

  ghost predicate Reports(e: Entry, l: Option<Value>, r: Option<Value>, p: Path) {
    e.Plain? && e.before == Leaf(l, p) && e.after == Leaf(r, p) && e.before != e.after
  }

  /** When two values are compared part by part, every entry lies below one of the parts. */
  lemma SplitEntry(l: Option<Value>, r: Option<Value>, at: Path, rules: Rules, p: Path, e: Entry)
    requires l != r && !rules.secret(at) && Segments(l, r).Some?
    requires e in Diff(l, r, at, rules) && Extends(at + p, e.at)
    ensures p != [] && at + p == at + [p[0]] + p[1..]
    ensures e in DiffPart(l, r, p[0], at, rules)
  {
    var s := EntryOrigin(l, r, Segments(l, r).value, at, rules, e);
    PartExtends(l, r, s, at, rules, e);
    ExtendsChild(at, s, e.at);
    assert p != [];
    ThroughHead(at, p);
    assert (at + p)[..|e.at|][|at|] == s;
  }

  lemma SplitIncludes(l: Option<Value>, r: Option<Value>, at: Path, rules: Rules, s: string, e: Entry)
    requires l != r && !rules.secret(at) && Segments(l, r).Some?
    requires e in DiffPart(l, r, s, at, rules)
    ensures e in Diff(l, r, at, rules)
  {
    SegmentsCover(l, r, s);
    EachIncludes(l, r, Segments(l, r).value, at, rules, s, e);
  }

  /** When two values are not compared part by part, there is one entry, at their own path. */
  lemma WholeEntry(l: Option<Value>, r: Option<Value>, at: Path, rules: Rules)
    requires l != r && (rules.secret(at) || Segments(l, r).None?)
    ensures |Diff(l, r, at, rules)| == 1 && Diff(l, r, at, rules)[0].at == at
    ensures Diff(l, r, at, rules)[0].Plain? ==> Reports(Diff(l, r, at, rules)[0], l, r, [])
    ensures Diff(l, r, at, rules)[0].Plain? ==> forall s :: Child(l, s).None? && Child(r, s).None?
  {
  }

  /** An entry with values stands for the whole pair, or lies below one of the parts. */
  lemma EntrySplits(l: Option<Value>, r: Option<Value>, at: Path, rules: Rules, p: Path, e: Entry)
    requires e in Diff(l, r, at, rules) && (e.Plain? || e.Foreign?) && e.at == at + p
    ensures !rules.secret(at)
    ensures Segments(l, r).None? ==> p == [] && e.Plain? && Reports(e, l, r, p)
    ensures Segments(l, r).Some? ==>
      && (l.Some? || r.Some?) && p != []
      && e in DiffPart(l, r, p[0], at, rules) && e.at == at + [p[0]] + p[1..]
  {
    hide CodeUnitOrder, Indices, DiffEach, DiffPart;
    if Segments(l, r).None? {
      WholeEntry(l, r, at, rules);
      assert |at + p| == |at| + |p|;
    } else {
      SplitEntry(l, r, at, rules, p, e);
    }
  }

  lemma PartOwn(l: Option<Value>, r: Option<Value>, s: string, at: Path, rules: Rules)
    requires (l.Some? || r.Some?) && !Inherits(l, r, s, rules)
    ensures DiffPart(l, r, s, at, rules) == Diff(Child(l, s), Child(r, s), at + [s], rules)
  {
  }

  lemma PlainIsOwn(l: Option<Value>, r: Option<Value>, s: string, at: Path, rules: Rules, e: Entry)
    requires (l.Some? || r.Some?) && e in DiffPart(l, r, s, at, rules) && e.Plain?
    ensures e in Diff(Child(l, s), Child(r, s), at + [s], rules)
  {
    hide Diff, Child;
  }

  lemma {:induction false} PlainEntries(l: Option<Value>, r: Option<Value>, at: Path, rules: Rules, p: Path,
                                        e: Entry)
    requires e in Diff(l, r, at, rules) && e.Plain? && e.at == at + p
    ensures Reports(e, l, r, p)
    decreases |p|
  {
    hide Diff, DiffPart, Segments, Child;
    EntrySplits(l, r, at, rules, p, e);
    if Segments(l, r).Some? {
      PlainIsOwn(l, r, p[0], at, rules, e);
      PlainEntries(Child(l, p[0]), Child(r, p[0]), at + [p[0]], rules, p[1..], e);
    }
  }

  lemma NoLeafBelow(v: Option<Value>, p: Path)
    requires p != [] && forall s :: Child(v, s).None?
    ensures Leaf(v, p).None?
  {
    NothingBelow(p[1..]);
    assert Child(v, p[0]) == None;
  }

  lemma {:induction false} NothingBelow(p: Path)
    ensures At(None, p).None?
    decreases |p|
  {
    if p != [] {
      NothingBelow(p[1..]);
    }
  }

  lemma SplitUnlisted(l: Option<Value>, r: Option<Value>, at: Path, rules: Rules, p: Path)
    requires l != r && !rules.secret(at) && Segments(l, r).Some? && p != []
    requires !Covered(Diff(l, r, at, rules), at + p) && !Listed(Diff(l, r, at, rules), at + p)
    ensures !Inherits(l, r, p[0], rules)
    ensures var inner := Diff(Child(l, p[0]), Child(r, p[0]), at + [p[0]], rules);
      !Covered(inner, at + [p[0]] + p[1..]) && !Listed(inner, at + [p[0]] + p[1..])
  {
    ThroughHead(at, p);
    var part := DiffPart(l, r, p[0], at, rules);
    forall e | e in part
      ensures e in Diff(l, r, at, rules)
    {
      SplitIncludes(l, r, at, rules, p[0], e);
    }
    if Inherits(l, r, p[0], rules) {
      InheritedCovers(l, r, at, rules, p);
    }
  }

  lemma InheritedCovers(l: Option<Value>, r: Option<Value>, at: Path, rules: Rules, p: Path)
    requires !rules.secret(at) && p != [] && Inherits(l, r, p[0], rules)
    ensures Covered(Diff(l, r, at, rules), at + p)
  {
    var e := DiffPart(l, r, p[0], at, rules)[0];
    SplitIncludes(l, r, at, rules, p[0], e);
    ThroughHead(at, p);
    assert Extends(at + p, e.at);
  }

  lemma {:induction false} UnlistedLeaves(l: Option<Value>, r: Option<Value>, at: Path, rules: Rules, p: Path)
    requires !Covered(Diff(l, r, at, rules), at + p) && !Listed(Diff(l, r, at, rules), at + p)
    ensures Leaf(l, p) == Leaf(r, p)
    decreases |p|
  {
    var es := Diff(l, r, at, rules);
    if l == r {
    } else if rules.secret(at) || Segments(l, r).None? {
      WholeEntry(l, r, at, rules);
      assert es[0] in es && Extends(at + p, at);
      assert p == [] ==> at + p == at;
      if p != [] {
        NoLeafBelow(l, p);
        NoLeafBelow(r, p);
      }
    } else if p != [] {
      SplitUnlisted(l, r, at, rules, p);
      UnlistedLeaves(Child(l, p[0]), Child(r, p[0]), at + [p[0]], rules, p[1..]);
    }
  }

  /** The leaf at `p` after the reported changes are applied to `before`. */
  ghost function Patched(before: Option<Value>, es: seq<Entry>, p: Path): Option<Value> {
    if Listed(es, p) then
      var e :| e in es && e.Plain? && e.at == p;
      e.after
    else Leaf(before, p)
  }

  /**
   * Applying a report to the leaves of the old value gives the leaves of the new one, everywhere
   * outside the redacted parts and the members compared with inherited functions; every other reported
   * value is a leaf of its side.
   */
  lemma ReportPatches(before: Option<Value>, after: Option<Value>, rules: Rules, p: Path, es: seq<Entry>)
    requires es == Diff(before, after, [], rules)
    ensures !Covered(es, p) ==> Patched(before, es, p) == Leaf(after, p)
    ensures forall e :: e in es && e.Plain? && e.at == p ==> Reports(e, before, after, p)
  {
    assert [] + p == p;
    forall e | e in es && e.Plain? && e.at == p
      ensures Reports(e, before, after, p)
    {
      PlainEntries(before, after, [], rules, p, e);
    }
    if !Covered(es, p) && !Listed(es, p) {
      UnlistedLeaves(before, after, [], rules, p);
    }
  }

  // ---- Inherited names ------------------------------------------------------------------

  /** The comparison comes to the place `p` without passing a secret or a change of kind. */
  predicate Compared(l: Option<Value>, r: Option<Value>, at: Path, p: Path, rules: Rules)
    decreases |p|
  {
    && !rules.secret(at)
    && (p != [] ==> Segments(l, r).Some? && Compared(Child(l, p[0]), Child(r, p[0]), at + [p[0]], p[1..], rules))
  }

  /** No name that one of two objects has, and the other lacks, is one that objects inherit. */
  predicate KeysAgree(l: Option<Value>, r: Option<Value>, rules: Rules) {
    forall s :: s in rules.inherited ==> !Inherits(l, r, s, rules)
  }

  /** The rules of a language in which objects inherit nothing. */
  function Ideal(rules: Rules): Rules {
    rules.(inherited := {})
  }

  ghost predicate NoInherited(l: Option<Value>, r: Option<Value>, at: Path, rules: Rules) {
    forall p :: Compared(l, r, at, p, rules) ==> KeysAgree(At(l, p), At(r, p), rules)
  }

  lemma ComparedChild(l: Option<Value>, r: Option<Value>, at: Path, k: string, p: Path, rules: Rules)
    requires !rules.secret(at) && Segments(l, r).Some?
    ensures Compared(l, r, at, [k] + p, rules) == Compared(Child(l, k), Child(r, k), at + [k], p, rules)
    ensures At(l, [k] + p) == At(Child(l, k), p) && At(r, [k] + p) == At(Child(r, k), p)
  {
    assert ([k] + p)[1..] == p;
  }

  lemma NoInheritedChild(l: Option<Value>, r: Option<Value>, at: Path, k: string, rules: Rules)
    requires NoInherited(l, r, at, rules) && !rules.secret(at) && Segments(l, r).Some?
    ensures NoInherited(Child(l, k), Child(r, k), at + [k], rules)
  {
    forall p | Compared(Child(l, k), Child(r, k), at + [k], p, rules)
      ensures KeysAgree(At(Child(l, k), p), At(Child(r, k), p), rules)
    {
      ComparedChild(l, r, at, k, p, rules);
    }
  }

  lemma {:induction false} NoInheritedIsIdeal(l: Option<Value>, r: Option<Value>, at: Path, rules: Rules)
    requires NoInherited(l, r, at, rules)
    ensures Diff(l, r, at, rules) == Diff(l, r, at, Ideal(rules))
    decreases l.Some?, r.Some?, Inner(l), Inner(r)
  {
    if l != r && !rules.secret(at) && Segments(l, r).Some? {
      EachIsIdeal(l, r, Segments(l, r).value, at, rules);
    }
  }

  lemma {:induction false} EachIsIdeal(l: Option<Value>, r: Option<Value>, segments: seq<string>, at: Path,
                                      rules: Rules)
    requires (l.Some? || r.Some?) && NoInherited(l, r, at, rules) && !rules.secret(at) && Segments(l, r).Some?
    ensures DiffEach(l, r, segments, at, rules) == DiffEach(l, r, segments, at, Ideal(rules))
    decreases l.Some?, r.Some?, Inner(l), Inner(r), |segments|
  {
    if segments != [] {
      var k := segments[0];
      assert Compared(l, r, at, [], rules) && At(l, []) == l && At(r, []) == r;
      assert KeysAgree(l, r, rules);
      hide Diff, DiffPart, NoInherited, Compared, KeysAgree, CodeUnitOrder, Indices;
      NoInheritedChild(l, r, at, k, rules);
      NoInheritedIsIdeal(Child(l, k), Child(r, k), at + [k], rules);
      PartIsIdeal(l, r, k, at, rules);
      EachIsIdeal(l, r, segments[1..], at, rules);
    }
  }

  lemma PartIsIdeal(l: Option<Value>, r: Option<Value>, s: string, at: Path, rules: Rules)
    requires (l.Some? || r.Some?) && KeysAgree(l, r, rules)
    requires Diff(Child(l, s), Child(r, s), at + [s], rules) == Diff(Child(l, s), Child(r, s), at + [s], Ideal(rules))
    ensures DiffPart(l, r, s, at, rules) == DiffPart(l, r, s, at, Ideal(rules))
  {
    hide Diff, Child;
  }

  /** The entry for a name that only one side has is not an entry of the ideal difference. */
  lemma StrangeHere(l: Option<Value>, r: Option<Value>, at: Path, rules: Rules, s: string) returns (e: Entry)
    requires !rules.secret(at) && Inherits(l, r, s, rules)
    ensures e in Diff(l, r, at, rules) && e !in Diff(l, r, at, Ideal(rules))
  {
    var part := DiffPart(l, r, s, at, rules);
    e := part[0];
    assert e.at == at + [s];
    SplitIncludes(l, r, at, rules, s, e);
    var ideal := Ideal(rules);
    if e in Diff(l, r, at, ideal) {
      var t := EntryOrigin(l, r, Segments(l, r).value, at, ideal, e);
      PartExtends(l, r, t, at, ideal, e);
      ExtendsChild(at, t, e.at);
      assert t == s;
      NotIdeal(Child(l, s), Child(r, s), at + [s], s, rules, e);
    }
  }

  lemma NotIdeal(l: Option<Value>, r: Option<Value>, at: Path, name: string, rules: Rules, e: Entry)
    requires l.Some? != r.Some? && e in DiffInherited(l, r, at, name, rules)
    ensures e !in Diff(l, r, at, Ideal(rules))
  {
    if !rules.secret(at) && HasParts(if l.Some? then l else r) && e in Diff(l, r, at, Ideal(rules)) {
      var t := EntryOrigin(l, r, Segments(l, r).value, at, Ideal(rules), e);
      PartExtends(l, r, t, at, Ideal(rules), e);
      ExtendsChild(at, t, e.at);
      assert false;
    }
  }

  lemma {:induction false} StrangeBelow(l: Option<Value>, r: Option<Value>, at: Path, rules: Rules, p: Path, s: string)
    returns (e: Entry)
    requires Compared(l, r, at, p, rules) && Inherits(At(l, p), At(r, p), s, rules)
    ensures e in Diff(l, r, at, rules) && e !in Diff(l, r, at, Ideal(rules))
    decreases |p|
  {
    if p == [] {
      e := StrangeHere(l, r, at, rules, s);
    } else {
      var k, ideal := p[0], Ideal(rules);
      BothThere(l, r, p, rules, s);
      e := StrangeBelow(Child(l, k), Child(r, k), at + [k], rules, p[1..], s);
      SplitIncludes(l, r, at, rules, k, e);
      EntriesExtend(Child(l, k), Child(r, k), at + [k], rules, e);
      ExtendsChild(at, k, e.at);
      if e in Diff(l, r, at, ideal) {
        var t := EntryOrigin(l, r, Segments(l, r).value, at, ideal, e);
        PartExtends(l, r, t, at, ideal, e);
        ExtendsChild(at, t, e.at);
        assert false;
      }
    }
  }

  /** Both sides have the part that leads to a pair of objects. */
  lemma BothThere(l: Option<Value>, r: Option<Value>, p: Path, rules: Rules, s: string)
    requires p != [] && Inherits(At(l, p), At(r, p), s, rules)
    ensures Child(l, p[0]).Some? && Child(r, p[0]).Some? && l != r && !Inherits(l, r, p[0], rules)
  {
    NothingBelow(p[1..]);
  }

  /**
   * The report is the difference of the two values as JSON exactly when, at every pair of objects that is
   * compared, the two key sets differ in no inherited name.
   */
  lemma IdealExactly(l: Option<Value>, r: Option<Value>, at: Path, rules: Rules)
    ensures Diff(l, r, at, rules) == Diff(l, r, at, Ideal(rules)) <==> NoInherited(l, r, at, rules)
  {
    if NoInherited(l, r, at, rules) {
      NoInheritedIsIdeal(l, r, at, rules);
    } else {
      var p :| Compared(l, r, at, p, rules) && !KeysAgree(At(l, p), At(r, p), rules);
      var s :| s in rules.inherited && Inherits(At(l, p), At(r, p), s, rules);
      var e := StrangeBelow(l, r, at, rules, p, s);
    }
  }

  /** A primitive member, not secret, is compared with an inherited function, and both are reported. */
  predicate ShowsFunction(l: Option<Value>, r: Option<Value>, at: Path, s: string, rules: Rules) {
    && Inherits(l, r, s, rules) && !rules.secret(at + [s])
    && !HasParts(Child(l, s)) && !HasParts(Child(r, s))
  }

  ghost predicate NoFunctions(l: Option<Value>, r: Option<Value>, at: Path, rules: Rules) {
    forall p, s :: Compared(l, r, at, p, rules) ==> !ShowsFunction(At(l, p), At(r, p), at + p, s, rules)
  }

  lemma {:induction false} FunctionBelow(l: Option<Value>, r: Option<Value>, at: Path, rules: Rules, p: Path, s: string)
    returns (e: Entry)
    requires Compared(l, r, at, p, rules) && ShowsFunction(At(l, p), At(r, p), at + p, s, rules)
    ensures e in Diff(l, r, at, rules) && e.Foreign? && e.at == at + p + [s]
    decreases |p|
  {
    if p == [] {
      assert at + p == at;
      e := DiffPart(l, r, s, at, rules)[0];
      SplitIncludes(l, r, at, rules, s, e);
    } else {
      ThroughHead(at, p);
      BothThere(l, r, p, rules, s);
      e := FunctionBelow(Child(l, p[0]), Child(r, p[0]), at + [p[0]], rules, p[1..], s);
      SplitIncludes(l, r, at, rules, p[0], e);
    }
  }

  lemma {:induction false} ForeignOrigin(l: Option<Value>, r: Option<Value>, at: Path, rules: Rules, e: Entry)
    returns (p: Path, s: string)
    requires e in Diff(l, r, at, rules) && e.Foreign?
    ensures Compared(l, r, at, p, rules) && ShowsFunction(At(l, p), At(r, p), at + p, s, rules)
    ensures e.at == at + p + [s]
    decreases |e.at| - |at|
  {
    hide ShowsFunction, Compared, At, Diff, Segments, Child;
    EntriesExtend(l, r, at, rules, e);
    var k := ForeignSplits(l, r, at, rules, e);
    if Inherits(l, r, k, rules) {
      p, s := [], k;
      ForeignHere(l, r, at, rules, e, s);
    } else {
      var q;
      EntriesExtend(Child(l, k), Child(r, k), at + [k], rules, e);
      q, s := ForeignOrigin(Child(l, k), Child(r, k), at + [k], rules, e);
      p := [k] + q;
      ComparedChild(l, r, at, k, q, rules);
      assert at + [k] + q == at + p;
    }
  }

  lemma ForeignSplits(l: Option<Value>, r: Option<Value>, at: Path, rules: Rules, e: Entry) returns (k: string)
    requires e in Diff(l, r, at, rules) && e.Foreign?
    ensures !rules.secret(at) && Segments(l, r).Some?
    ensures Inherits(l, r, k, rules) ==> e in DiffPart(l, r, k, at, rules)
    ensures !Inherits(l, r, k, rules) ==> e in Diff(Child(l, k), Child(r, k), at + [k], rules)
  {
    k := EntryOrigin(l, r, Segments(l, r).value, at, rules, e);
  }

  lemma ForeignHere(l: Option<Value>, r: Option<Value>, at: Path, rules: Rules, e: Entry, s: string)
    requires !rules.secret(at) && Inherits(l, r, s, rules) && e in DiffPart(l, r, s, at, rules) && e.Foreign?
    ensures Compared(l, r, at, [], rules) && ShowsFunction(At(l, []), At(r, []), at + [], s, rules)
    ensures e.at == at + [] + [s]
  {
    assert at + [] == at;
  }

  /** Functions are reported exactly where a compared pair of objects shows one. */
  lemma FunctionsExactly(l: Option<Value>, r: Option<Value>, at: Path, rules: Rules)
    ensures (forall e :: e in Diff(l, r, at, rules) ==> !e.Foreign?) <==> NoFunctions(l, r, at, rules)
  {
    if NoFunctions(l, r, at, rules) {
      forall e | e in Diff(l, r, at, rules)
        ensures !e.Foreign?
      {
        if e.Foreign? {
          var p, s := ForeignOrigin(l, r, at, rules, e);
          assert false;
        }
      }
    } else {
      var p, s :| Compared(l, r, at, p, rules) && ShowsFunction(At(l, p), At(r, p), at + p, s, rules);
      var e := FunctionBelow(l, r, at, rules, p, s);
    }
  }

  // ---- No part is reported twice --------------------------------------------------------

  /** No two entries speak about the same part, and none about a part of another's. */
  ghost predicate Apart(es: seq<Entry>) {
    forall i, j :: 0 <= i < j < |es| ==> !Extends(es[i].at, es[j].at) && !Extends(es[j].at, es[i].at)
  }

  lemma SegmentsDistinct(l: Option<Value>, r: Option<Value>)
    requires Segments(l, r).Some?
    ensures Distinct(Segments(l, r).value)
  {
    var ks := Segments(l, r).value;
    if !(IsObject(l) || IsObject(r)) {
      forall i, j | 0 <= i < j < |ks|
        ensures ks[i] != ks[j]
      {
        Decimal.DigitsValue(i);
        Decimal.DigitsValue(j);
      }
    }
  }

  lemma {:induction false} EntriesApart(l: Option<Value>, r: Option<Value>, at: Path, rules: Rules)
    ensures Apart(Diff(l, r, at, rules))
    decreases l.Some?, r.Some?, Inner(l), Inner(r)
  {
    if l != r && !rules.secret(at) && Segments(l, r).Some? {
      SegmentsDistinct(l, r);
      EachApart(l, r, Segments(l, r).value, at, rules);
    }
  }

  lemma {:induction false} EachApart(l: Option<Value>, r: Option<Value>, segments: seq<string>, at: Path,
                                     rules: Rules)
    requires (l.Some? || r.Some?) && Distinct(segments)
    ensures Apart(DiffEach(l, r, segments, at, rules))
    decreases l.Some?, r.Some?, Inner(l), Inner(r), |segments|
  {
    if segments != [] {
      var s, rest := segments[0], segments[1..];
      var first, others := DiffPart(l, r, s, at, rules), DiffEach(l, r, rest, at, rules);
      if !Inherits(l, r, s, rules) {
        EntriesApart(Child(l, s), Child(r, s), at + [s], rules);
      }
      EachApart(l, r, rest, at, rules);
      forall e, f | e in first && f in others
        ensures !Extends(e.at, f.at) && !Extends(f.at, e.at)
      {
        PartExtends(l, r, s, at, rules, e);
        ExtendsChild(at, s, e.at);
        var t := EntryOrigin(l, r, rest, at, rules, f);
        PartExtends(l, r, t, at, rules, f);
        ExtendsChild(at, t, f.at);
        assert e.at[|at|] == s && f.at[|at|] == t && s != t;
        SplitAt(e.at, f.at, |at|);
        SplitAt(f.at, e.at, |at|);
      }
      AppendApart(first, others);
    }
  }

  lemma SplitAt(p: Path, q: Path, n: nat)
    requires n < |p| && n < |q| && p[n] != q[n]
    ensures !Extends(p, q)
  {
    assert |q| <= |p| ==> p[..|q|][n] == p[n];
  }

  lemma AppendApart(es: seq<Entry>, fs: seq<Entry>)
    requires Apart(es) && Apart(fs)
    requires forall e, f :: e in es && f in fs ==> !Extends(e.at, f.at) && !Extends(f.at, e.at)
    ensures Apart(es + fs)
  {
  }

  // ---- When the report is empty ---------------------------------------------------------

  /** Nothing to report at one place: containers of one kind, the same leaf, or a missing container. */
  predicate Compatible(a: Option<Value>, b: Option<Value>) {
    match (a, b)
    case (Some(v), Some(w)) => if IsPrimitive(v) || IsPrimitive(w) then v == w else v.Obj? == w.Obj?
    case (Some(v), None) => !IsPrimitive(v)
    case (None, Some(w)) => !IsPrimitive(w)
    case (None, None) => true
  }

  ghost predicate Silent(l: Option<Value>, r: Option<Value>, at: Path, rules: Rules, p: Path) {
    && Compatible(At(l, p), At(r, p))
    && (rules.secret(at + p) ==> At(l, p) == At(r, p))
    && KeysAgree(At(l, p), At(r, p), rules)
  }

  lemma {:induction false} SilentBelow(l: Option<Value>, r: Option<Value>, at: Path, rules: Rules, p: Path)
    requires Diff(l, r, at, rules) == []
    ensures Silent(l, r, at, rules, p)
    decreases |p|
  {
    if l != r {
      assert !rules.secret(at) && Segments(l, r).Some?;
      assert p == [] ==> at + p == at;
      SilentHere(l, r, at, rules);
      if p != [] {
        var s := p[0];
        var inner := DiffPart(l, r, s, at, rules);
        if inner != [] {
          SplitIncludes(l, r, at, rules, s, inner[0]);
        }
        ThroughHead(at, p);
        SilentBelow(Child(l, s), Child(r, s), at + [s], rules, p[1..]);
      }
    }
  }

  /** An inherited name always leaves an entry. */
  lemma SilentHere(l: Option<Value>, r: Option<Value>, at: Path, rules: Rules)
    requires l != r && Diff(l, r, at, rules) == []
    ensures KeysAgree(l, r, rules)
  {
    forall s | s in rules.inherited
      ensures !Inherits(l, r, s, rules)
    {
      if Inherits(l, r, s, rules) {
        var part := DiffPart(l, r, s, at, rules);
        SplitIncludes(l, r, at, rules, s, part[0]);
        assert false;
      }
    }
  }

  lemma {:induction false} SilentMeansEmpty(l: Option<Value>, r: Option<Value>, at: Path, rules: Rules)
    requires forall p :: Silent(l, r, at, rules, p)
    ensures Diff(l, r, at, rules) == []
    decreases l.Some?, r.Some?, Inner(l), Inner(r)
  {
    assert Silent(l, r, at, rules, []);
    assert at + [] == at;
    if l != r {
      assert Segments(l, r).Some?;
      EachSilent(l, r, Segments(l, r).value, at, rules);
    }
  }

  lemma {:induction false} EachSilent(l: Option<Value>, r: Option<Value>, segments: seq<string>, at: Path,
                                      rules: Rules)
    requires l.Some? || r.Some?
    requires forall p :: Silent(l, r, at, rules, p)
    ensures DiffEach(l, r, segments, at, rules) == []
    decreases l.Some?, r.Some?, Inner(l), Inner(r), |segments|
  {
    if segments != [] {
      var s := segments[0];
      assert Silent(l, r, at, rules, []) && KeysAgree(l, r, rules);
      forall p
        ensures Silent(Child(l, s), Child(r, s), at + [s], rules, p)
      {
        assert Silent(l, r, at, rules, [s] + p);
        assert ([s] + p)[1..] == p;
        ThroughHead(at, [s] + p);
      }
      SilentMeansEmpty(Child(l, s), Child(r, s), at + [s], rules);
      EachSilent(l, r, segments[1..], at, rules);
    }
  }

  /** The report is empty exactly when nothing is to be reported at any path. */
  lemma EmptyReport(l: Option<Value>, r: Option<Value>, at: Path, rules: Rules)
    ensures Diff(l, r, at, rules) == [] <==> forall p :: Silent(l, r, at, rules, p)
  {
    if Diff(l, r, at, rules) == [] {
      forall p
        ensures Silent(l, r, at, rules, p)
      {
        SilentBelow(l, r, at, rules, p);
      }
    }
    if forall p :: Silent(l, r, at, rules, p) {
      SilentMeansEmpty(l, r, at, rules);
    }
  }

  // ---- Secrets do not influence the report ----------------------------------------------

  /** What can be seen at one place without looking further down. */
  datatype Node = Absent | LeafNode(v: Value) | ObjectNode(keys: set<string>) | ArrayNode(n: nat)

  function NodeOf(v: Option<Value>): Node {
    match v
    case None => Absent
    case Some(Obj(ms)) => ObjectNode(ms.Keys)
    case Some(Arr(items)) => ArrayNode(|items|)
    case Some(w) => LeafNode(w)
  }

  /** `p`, or a place above it, is sensitive. */
  predicate Shielded(at: Path, p: Path, rules: Rules)
    decreases |p|
  {
    rules.secret(at) || (p != [] && Shielded(at + [p[0]], p[1..], rules))
  }

  /** `p` is sensitive and no place above it is. */
  predicate FirstSecret(at: Path, p: Path, rules: Rules)
    decreases |p|
  {
    if p == [] then rules.secret(at) else !rules.secret(at) && FirstSecret(at + [p[0]], p[1..], rules)
  }

  ghost predicate SamePublic(a: Option<Value>, b: Option<Value>, at: Path, rules: Rules) {
    forall p :: !Shielded(at, p, rules) ==> NodeOf(At(a, p)) == NodeOf(At(b, p))
  }

  /** Both pairs have the same secrets, and changed the same ones. */
  ghost predicate SameSecrets(l: Option<Value>, r: Option<Value>, m: Option<Value>, s: Option<Value>, at: Path,
                              rules: Rules) {
    forall p :: FirstSecret(at, p, rules) ==>
      && (At(l, p).None? <==> At(m, p).None?)
      && (At(r, p).None? <==> At(s, p).None?)
      && (At(l, p) == At(r, p) <==> At(m, p) == At(s, p))
  }

  lemma AtChild(v: Option<Value>, k: string, p: Path)
    ensures At(v, [k] + p) == At(Child(v, k), p)
  {
    assert ([k] + p)[1..] == p;
  }

  lemma ShieldedChild(k: string, p: Path, at: Path, rules: Rules)
    requires !rules.secret(at)
    ensures Shielded(at, [k] + p, rules) == Shielded(at + [k], p, rules)
    ensures FirstSecret(at, [k] + p, rules) == FirstSecret(at + [k], p, rules)
  {
    assert ([k] + p)[1..] == p;
  }

  lemma SamePublicChild(a: Option<Value>, b: Option<Value>, k: string, at: Path, rules: Rules)
    requires SamePublic(a, b, at, rules) && !rules.secret(at)
    ensures SamePublic(Child(a, k), Child(b, k), at + [k], rules)
  {
    forall p | !Shielded(at + [k], p, rules)
      ensures NodeOf(At(Child(a, k), p)) == NodeOf(At(Child(b, k), p))
    {
      ShieldedChild(k, p, at, rules);
      AtChild(a, k, p);
      AtChild(b, k, p);
    }
  }

  lemma SameSecretsChild(l: Option<Value>, r: Option<Value>, m: Option<Value>, s: Option<Value>, k: string,
                         at: Path, rules: Rules)
    requires SameSecrets(l, r, m, s, at, rules) && !rules.secret(at)
    ensures SameSecrets(Child(l, k), Child(r, k), Child(m, k), Child(s, k), at + [k], rules)
  {
    forall p | FirstSecret(at + [k], p, rules)
      ensures At(Child(l, k), p).None? <==> At(Child(m, k), p).None?
      ensures At(Child(r, k), p).None? <==> At(Child(s, k), p).None?
      ensures At(Child(l, k), p) == At(Child(r, k), p) <==> At(Child(m, k), p) == At(Child(s, k), p)
    {
      ShieldedChild(k, p, at, rules);
      AtChild(l, k, p);
      AtChild(r, k, p);
      AtChild(m, k, p);
      AtChild(s, k, p);
    }
  }

  lemma {:induction false} EqualGivesNothing(l: Option<Value>, segments: seq<string>, at: Path, rules: Rules)
    requires l.Some?
    ensures DiffEach(l, l, segments, at, rules) == []
  {
    if segments != [] {
      assert DiffPart(l, l, segments[0], at, rules) == [] by {
        assert !Inherits(l, l, segments[0], rules);
        assert Diff(Child(l, segments[0]), Child(l, segments[0]), at + [segments[0]], rules) == [];
      }
      EqualGivesNothing(l, segments[1..], at, rules);
    }
  }

  /**
   * Non-interference: pairs of values that agree outside the sensitive parts, and agree on which
   * sensitive parts exist and which changed, give the same report.
   */
  lemma {:induction false} SecretsDoNotInterfere(l: Option<Value>, r: Option<Value>, m: Option<Value>, s: Option<Value>,
                                                at: Path, rules: Rules)
    requires SamePublic(l, m, at, rules) && SamePublic(r, s, at, rules) && SameSecrets(l, r, m, s, at, rules)
    ensures Diff(l, r, at, rules) == Diff(m, s, at, rules)
    decreases l.Some?, r.Some?, Inner(l), Inner(r)
  {
    if rules.secret(at) {
      assert FirstSecret(at, [], rules);
      assert At(l, []) == l && At(r, []) == r && At(m, []) == m && At(s, []) == s;
    } else {
      SameShape(l, r, m, s, at, rules);
      if Segments(l, r).Some? {
        hide Segments, SamePublic, SameSecrets, Inherits;
        var segments := Segments(l, r).value;
        EachSameReport(l, r, m, s, segments, at, rules);
        if l == r {
          EqualGivesNothing(l, segments, at, rules);
        }
        if m == s {
          EqualGivesNothing(m, segments, at, rules);
        }
      }
    }
  }

  /** Where the values are public, both pairs are compared part by part, or reported whole, alike. */
  lemma SameShape(l: Option<Value>, r: Option<Value>, m: Option<Value>, s: Option<Value>, at: Path, rules: Rules)
    requires SamePublic(l, m, at, rules) && SamePublic(r, s, at, rules) && !rules.secret(at)
    ensures Segments(l, r) == Segments(m, s)
    ensures Segments(l, r).None? ==> Diff(l, r, at, rules) == Diff(m, s, at, rules)
    ensures Segments(l, r).Some? ==> (l.Some? || r.Some?) && (m.Some? || s.Some?)
  {
    assert !Shielded(at, [], rules);
    assert NodeOf(At(l, [])) == NodeOf(At(m, [])) && NodeOf(At(r, [])) == NodeOf(At(s, []));
    hide CodeUnitOrder, Indices, Diff, SamePublic, Shielded, At, NodeOf;
    SameKind(l, m);
    SameKind(r, s);
    if Segments(l, r).None? {
      DiffWhole(l, r, at, rules);
      DiffWhole(m, s, at, rules);
    }
  }

  lemma SameKind(v: Option<Value>, w: Option<Value>)
    requires NodeOf(v) == NodeOf(w)
    ensures KeySet(v) == KeySet(w) && Length(v) == Length(w)
    ensures IsObject(v) == IsObject(w) && IsArray(v) == IsArray(w) && v.Some? == w.Some?
    ensures !HasParts(v) ==> v == w
  {
  }

  lemma DiffWhole(l: Option<Value>, r: Option<Value>, at: Path, rules: Rules)
    requires Segments(l, r).None? && !rules.secret(at)
    ensures Diff(l, r, at, rules)
      == if HasParts(l) || HasParts(r) then [Changed(at)] else if l == r then [] else [Plain(at, l, r)]
  {
  }

  lemma {:induction false} EachSameReport(l: Option<Value>, r: Option<Value>, m: Option<Value>, s: Option<Value>,
                                         segments: seq<string>, at: Path, rules: Rules)
    requires (l.Some? || r.Some?) && (m.Some? || s.Some?) && !rules.secret(at)
    requires SamePublic(l, m, at, rules) && SamePublic(r, s, at, rules) && SameSecrets(l, r, m, s, at, rules)
    ensures DiffEach(l, r, segments, at, rules) == DiffEach(m, s, segments, at, rules)
    decreases l.Some?, r.Some?, Inner(l), Inner(r), |segments|
  {
    if segments != [] {
      var k := segments[0];
      SamePublicChild(l, m, k, at, rules);
      SamePublicChild(r, s, k, at, rules);
      SameSecretsChild(l, r, m, s, k, at, rules);
      SecretsDoNotInterfere(Child(l, k), Child(r, k), Child(m, k), Child(s, k), at + [k], rules);
      SameInherited(l, r, m, s, k, at, rules);
      EachSameReport(l, r, m, s, segments[1..], at, rules);
    }
  }

  lemma SameInherited(l: Option<Value>, r: Option<Value>, m: Option<Value>, s: Option<Value>, k: string, at: Path,
                      rules: Rules)
    requires SamePublic(l, m, at, rules) && SamePublic(r, s, at, rules) && !rules.secret(at)
    ensures Inherits(l, r, k, rules) == Inherits(m, s, k, rules)
    ensures Inherits(l, r, k, rules) ==>
      DiffInherited(Child(l, k), Child(r, k), at + [k], k, rules)
        == DiffInherited(Child(m, k), Child(s, k), at + [k], k, rules)
  {
    assert !Shielded(at, [], rules);
    assert NodeOf(At(l, [])) == NodeOf(At(m, [])) && NodeOf(At(r, [])) == NodeOf(At(s, []));
    if !rules.secret(at + [k]) {
      SamePublicChild(l, m, k, at, rules);
      SamePublicChild(r, s, k, at, rules);
      assert !Shielded(at + [k], [], rules);
      assert NodeOf(At(Child(l, k), [])) == NodeOf(At(Child(m, k), []));
      assert NodeOf(At(Child(r, k), [])) == NodeOf(At(Child(s, k), []));
    }
  }

  /** A reported value never lies in a sensitive part. */
  lemma {:induction false} ReportedIsPublic(l: Option<Value>, r: Option<Value>, at: Path, rules: Rules, p: Path,
                                            e: Entry)
    requires e in Diff(l, r, at, rules) && (e.Plain? || e.Foreign?) && e.at == at + p
    ensures !Shielded(at, p, rules)
    decreases |p|
  {
    hide Diff, DiffPart, Child, Segments, Inherits, Reports;
    EntrySplits(l, r, at, rules, p, e);
    if Segments(l, r).Some? {
      hide Shielded;
      if Inherits(l, r, p[0], rules) {
        PublicFunction(l, r, at, rules, p, e);
      } else {
        PartOwn(l, r, p[0], at, rules);
        ReportedIsPublic(Child(l, p[0]), Child(r, p[0]), at + [p[0]], rules, p[1..], e);
        ShieldedChild(p[0], p[1..], at, rules);
        assert p == [p[0]] + p[1..];
      }
    }
  }

  lemma PublicFunction(l: Option<Value>, r: Option<Value>, at: Path, rules: Rules, p: Path, e: Entry)
    requires !rules.secret(at) && p != [] && Inherits(l, r, p[0], rules)
    requires e in DiffPart(l, r, p[0], at, rules) && (e.Plain? || e.Foreign?) && e.at == at + p
    ensures !Shielded(at, p, rules)
  {
    assert |at + p| == |at| + |p|;
    assert p == [p[0]];
  }

  // ---- The report in the source's terms -------------------------------------------------

  /** A side of a comparison: undefined, a JSON value, or the function that objects inherit as `name`. */
  datatype Side = Missing | Given(value: Value) | Inherited(name: string)

  function AsSide(v: Option<Value>): Side {
    match v
    case None => Missing
    case Some(w) => Given(w)
  }

  /** The value of a side; a function is not one. */
  function ValueOf(side: Side): Option<Value> {
    if side.Given? then Some(side.value) else None
  }

  datatype Change = Change(path: string, before: Side, after: Side, redacted: bool)

  /** The functions of Object.prototype. */
  const OBJECT_FUNCTIONS: set<string> := {
    "constructor", "hasOwnProperty", "isPrototypeOf", "propertyIsEnumerable", "toLocaleString", "toString", "valueOf",
    "__defineGetter__", "__defineSetter__", "__lookupGetter__", "__lookupSetter__"
  }

  function PathRules(prefix: string, patterns: seq<string>): Rules {
    Rules((p: Path) => Sensitive(prefix + Pointer(p), patterns), OBJECT_FUNCTIONS)
  }

  function OrRoot(path: string): string {
    if path == "" then "/" else path
  }

  function OrFunction(v: Option<Value>, name: string): Side {
    match v
    case None => Inherited(name)
    case Some(w) => Given(w)
  }

  const CHANGED := Given(Str("[changed]"))

  function Render(prefix: string, e: Entry): Change {
    var path := prefix + Pointer(e.at);
    match e
    case Plain(_, b, a) => Change(OrRoot(path), AsSide(b), AsSide(a), false)
    case Redacted(_, b, a) => Change(OrRoot(path), AsSide(b), AsSide(a), true)
    case Changed(_) => Change(path, CHANGED, CHANGED, true)
    case Foreign(_, name, b, a) => Change(OrRoot(path), OrFunction(b, name), OrFunction(a, name), false)
  }

  function RenderAll(prefix: string, es: seq<Entry>): (cs: seq<Change>)
    ensures |cs| == |es| && forall i :: 0 <= i < |es| ==> cs[i] == Render(prefix, es[i])
  {
    seq(|es|, i requires 0 <= i < |es| => Render(prefix, es[i]))
  }

  /** What configChanges returns. */
  function Report(before: Option<Value>, after: Option<Value>, patterns: seq<string>, prefix: string): seq<Change> {
    RenderAll(prefix, Diff(before, after, [], PathRules(prefix, patterns)))
  }

  /** Each pointer is reported at most once. */
  lemma ReportedOnce(before: Option<Value>, after: Option<Value>, patterns: seq<string>, prefix: string)
    ensures var cs := Report(before, after, patterns, prefix);
      forall i, j :: 0 <= i < j < |cs| ==> cs[i].path != cs[j].path
  {
    var rules := PathRules(prefix, patterns);
    var es := Diff(before, after, [], rules);
    EntriesApart(before, after, [], rules);
    forall i, j | 0 <= i < j < |es|
      ensures Render(prefix, es[i]).path != Render(prefix, es[j]).path
    {
      RenderApart(prefix, es[i], es[j]);
    }
  }

  lemma RenderApart(prefix: string, e: Entry, f: Entry)
    requires !Extends(e.at, f.at) && !Extends(f.at, e.at)
    ensures Render(prefix, e).path != Render(prefix, f).path
  {
    assert Extends(e.at, []) && Extends(f.at, []);
    assert |prefix + Pointer(e.at)| > 0 && |prefix + Pointer(f.at)| > 0;
    if prefix + Pointer(e.at) == prefix + Pointer(f.at) {
      CancelHead(prefix, Pointer(e.at), Pointer(f.at));
      PointerInjective(e.at, f.at);
    }
  }

  // ---- What the report shows of secrets -------------------------------------------------

  /** The sides carry nothing but whether they have a value. */
  predicate HidesValues(c: Change) {
    && (c.before == Missing || c.before == Given(Str("[redacted]")))
    && (c.after == Missing || c.after == Given(Str("[redacted]")))
  }

  predicate CarriesPrimitives(c: Change) {
    && (c.before.Given? ==> IsPrimitive(c.before.value))
    && (c.after.Given? ==> IsPrimitive(c.after.value))
  }

  /** An entry is redacted exactly where the place is secret, and carries primitive values only. */
  predicate GoodEntry(e: Entry, rules: Rules) {
    && (e.Redacted? <==> rules.secret(e.at))
    && HidesOrCarries(e)
  }

  predicate HidesOrCarries(e: Entry) {
    match e
    case Redacted(_, b, a) =>
      (b == None || b == Some(Str("[redacted]"))) && (a == None || a == Some(Str("[redacted]")))
    case Changed(_) => true
    case _ => (e.before.Some? ==> IsPrimitive(e.before.value)) && (e.after.Some? ==> IsPrimitive(e.after.value))
  }

  lemma WholeIsGood(l: Option<Value>, r: Option<Value>, at: Path, rules: Rules)
    requires l != r && (rules.secret(at) || Segments(l, r).None?)
    ensures GoodEntry(Diff(l, r, at, rules)[0], rules) && |Diff(l, r, at, rules)| == 1
  {
    hide CodeUnitOrder, Indices;
  }

  lemma InheritedIsGood(l: Option<Value>, r: Option<Value>, s: string, at: Path, rules: Rules, e: Entry)
    requires (l.Some? || r.Some?) && Inherits(l, r, s, rules) && e in DiffPart(l, r, s, at, rules)
    ensures GoodEntry(e, rules)
  {
    hide Diff;
  }

  lemma {:induction false} EntriesAreGood(l: Option<Value>, r: Option<Value>, at: Path, rules: Rules, e: Entry)
    requires e in Diff(l, r, at, rules)
    ensures GoodEntry(e, rules)
    decreases l.Some?, r.Some?, Inner(l), Inner(r)
  {
    assert l != r;
    if rules.secret(at) || Segments(l, r).None? {
      WholeIsGood(l, r, at, rules);
    } else {
      var s := EntryOrigin(l, r, Segments(l, r).value, at, rules, e);
      hide Diff, DiffPart, Segments, GoodEntry;
      if Inherits(l, r, s, rules) {
        InheritedIsGood(l, r, s, at, rules, e);
      } else {
        PartOwn(l, r, s, at, rules);
        EntriesAreGood(Child(l, s), Child(r, s), at + [s], rules, e);
      }
    }
  }

  /** The pointer of the whole is printed as "/", and is secret either way. */
  lemma RootIsSlash(patterns: seq<string>)
    ensures Sensitive("", patterns) == Sensitive("/", patterns)
  {
    EmptyIsNoName("");
    EmptyIsNoName("/");
    hide SensitiveName;
    assert Relative("") == Relative("/");
  }

  /**
   * Redaction: no change under a secret path shows more than whether there is a value; elsewhere only a change
   * of kind is withheld, and nothing but primitive values is ever shown, so that no secret part of a value is
   * shown with the whole.
   */
  lemma SecretsAreHidden(before: Option<Value>, after: Option<Value>, patterns: seq<string>, prefix: string, c: Change)
    requires c in Report(before, after, patterns, prefix)
    ensures IsSecretPath(c.path, patterns) ==> c.redacted && HidesValues(c)
    ensures !IsSecretPath(c.path, patterns) && c.redacted ==>
      c.before == Given(Str("[changed]")) && c.after == Given(Str("[changed]"))
    ensures CarriesPrimitives(c)
  {
    hide Diff, Sensitive, IsSecretPath, Pointer;
    var rules := PathRules(prefix, patterns);
    var e := EntryOfChange(prefix, Diff(before, after, [], rules), c);
    EntriesAreGood(before, after, [], rules, e);
    RootIsSlash(patterns);
    SensitiveExactly(c.path, patterns);
  }

  // ---- The report by printed pointers ---------------------------------------------------

  /**
   * When the printed paths are the pointers: not for an unprefixed comparison that is reported as a whole,
   * that is, of sensitive values or of two values neither of which has parts.
   */
  predicate PrintsPointers(before: Option<Value>, after: Option<Value>, patterns: seq<string>, prefix: string) {
    || prefix != "" || before == after
    || (!Sensitive(prefix, patterns) && (HasParts(before) || HasParts(after)))
  }

  ghost predicate PathsArePointers(prefix: string, es: seq<Entry>) {
    forall e :: e in es ==> Render(prefix, e).path == prefix + Pointer(e.at)
  }

  /** The paths of a report are the pointers of its entries exactly under that condition. */
  lemma PointersArePrinted(before: Option<Value>, after: Option<Value>, patterns: seq<string>, prefix: string)
    ensures PathsArePointers(prefix, Diff(before, after, [], PathRules(prefix, patterns)))
      <==> PrintsPointers(before, after, patterns, prefix)
  {
    hide RenderAll, SortedBy, Distinct, CodeUnitOrder, Indices, Sensitive, DiffEach;
    var rules := PathRules(prefix, patterns);
    var es := Diff(before, after, [], rules);
    assert prefix + Pointer([]) == prefix;
    if prefix == "" && before != after {
      if rules.secret([]) || Segments(before, after).None? {
        WholeEntry(before, after, [], rules);
        assert es[0] in es;
      } else {
        forall e | e in es
          ensures Render(prefix, e).path == prefix + Pointer(e.at)
        {
          BelowRoot(before, after, rules, e);
        }
      }
    } else {
      assert forall e :: e in es ==> prefix + Pointer(e.at) != "";
    }
  }

  lemma BelowRoot(before: Option<Value>, after: Option<Value>, rules: Rules, e: Entry)
    requires before != after && !rules.secret([]) && Segments(before, after).Some?
    requires e in Diff(before, after, [], rules)
    ensures e.at != []
  {
    var s := EntryOrigin(before, after, Segments(before, after).value, [], rules, e);
    PartExtends(before, after, s, [], rules, e);
    ExtendsChild([], s, e.at);
  }

  /** `pointer` names the part that `whole` names, or a part of it. */
  predicate Within(pointer: string, whole: string) {
    |whole| <= |pointer| && pointer[..|whole|] == whole && SegmentEnd(pointer[|whole|..])
  }

  lemma {:induction false} PointerWithin(p: Path, q: Path)
    ensures Within(Pointer(p), Pointer(q)) <==> Extends(p, q)
    decreases |q|
  {
    if q == [] {
      assert Pointer(p)[0..] == Pointer(p);
    } else if p != [] {
      PointerStart(p);
      PointerStart(q);
      PointerWithin(p[1..], q[1..]);
      HeadWithin(p[0], q[0], Pointer(p[1..]), Pointer(q[1..]));
      assert Extends(p, q) <==> p[0] == q[0] && Extends(p[1..], q[1..]) by {
        ExtendsHead(p, q);
      }
    }
  }

  lemma ExtendsHead(p: Path, q: Path)
    requires p != [] && q != []
    ensures Extends(p, q) <==> p[0] == q[0] && Extends(p[1..], q[1..])
  {
    if |q| <= |p| {
      assert p[..|q|] == [p[0]] + p[1..][..|q| - 1];
      assert q == [q[0]] + q[1..];
    }
  }

  lemma HeadWithin(k: string, l: string, x: string, y: string)
    requires SegmentEnd(x) && SegmentEnd(y)
    ensures Within("/" + (EscapeSegment(k) + x), "/" + (EscapeSegment(l) + y)) <==> k == l && Within(x, y)
  {
    hide EscapeSegment;
    var e, f := EscapeSegment(k), EscapeSegment(l);
    var a, b := "/" + (e + x), "/" + (f + y);
    if Within(a, b) {
      var rest := a[|b|..];
      assert a == b + rest;
      Assoc("/", f + y, rest);
      Assoc(f, y, rest);
      CancelHead("/", e + x, f + (y + rest));
      EndAppend(y, rest);
      SegmentPrefix(k, l, x, y + rest);
      RestAfter(y, rest);
    }
    if k == l && Within(x, y) {
      var rest := x[|y|..];
      Assoc(e, y, rest);
      Assoc("/", e + y, rest);
      assert x == y + rest;
      RestAfter(b, rest);
    }
  }

  lemma EndAppend(y: string, rest: string)
    requires SegmentEnd(y) && SegmentEnd(rest)
    ensures SegmentEnd(y + rest)
  {
    assert y == "" ==> y + rest == rest;
  }

  lemma RestAfter(whole: string, rest: string)
    requires SegmentEnd(rest)
    ensures Within(whole + rest, whole) && (whole + rest)[|whole|..] == rest
  {
  }

  /** A redacted change covers the pointer. */
  ghost predicate CoveredBy(cs: seq<Change>, pointer: string) {
    exists c :: c in cs && c.redacted && Within(pointer, c.path)
  }

  ghost predicate ListedBy(cs: seq<Change>, pointer: string) {
    exists c :: c in cs && !c.redacted && c.path == pointer
  }

  /** What a pointer names after the changes are applied, given what it named before. */
  ghost function PatchedBy(leaf: Side, cs: seq<Change>, pointer: string): Side {
    if ListedBy(cs, pointer) then
      var c :| c in cs && !c.redacted && c.path == pointer;
      c.after
    else leaf
  }

  function LeafSide(v: Option<Value>, p: Path): Side {
    AsSide(Leaf(v, p))
  }

  lemma WithinPrefix(prefix: string, p: Path, q: Path)
    ensures Within(prefix + Pointer(p), prefix + Pointer(q)) <==> Extends(p, q)
  {
    PointerWithin(p, q);
    var a, b, n := Pointer(p), Pointer(q), |prefix|;
    if |b| <= |a| {
      assert (prefix + a)[..n + |b|] == prefix + a[..|b|];
      assert (prefix + a)[n + |b|..] == a[|b|..];
      if prefix + a[..|b|] == prefix + b {
        CancelHead(prefix, a[..|b|], b);
      }
    }
  }

  /** The change printed for an entry, and the entry behind a change. */
  lemma ChangeOfEntry(prefix: string, es: seq<Entry>, e: Entry)
    requires e in es
    ensures Render(prefix, e) in RenderAll(prefix, es)
  {
    var i :| 0 <= i < |es| && es[i] == e;
    assert RenderAll(prefix, es)[i] == Render(prefix, e);
  }

  lemma EntryOfChange(prefix: string, es: seq<Entry>, c: Change) returns (e: Entry)
    requires c in RenderAll(prefix, es)
    ensures e in es && c == Render(prefix, e)
  {
    var i :| 0 <= i < |es| && RenderAll(prefix, es)[i] == c;
    e := es[i];
  }

  /** A listed change carries the two different leaves that its pointer names. */
  ghost predicate CarriesLeaves(c: Change, before: Option<Value>, after: Option<Value>, p: Path) {
    c.before == LeafSide(before, p) && c.after == LeafSide(after, p) && c.before != c.after
  }

  lemma ListedChange(before: Option<Value>, after: Option<Value>, patterns: seq<string>, prefix: string, p: Path,
                     c: Change)
    requires PrintsPointers(before, after, patterns, prefix)
    requires NoFunctions(before, after, [], PathRules(prefix, patterns))
    requires c in Report(before, after, patterns, prefix) && !c.redacted && c.path == prefix + Pointer(p)
    ensures CarriesLeaves(c, before, after, p)
    ensures Listed(Diff(before, after, [], PathRules(prefix, patterns)), p)
  {
    hide Diff, PrintsPointers, NoFunctions;
    var es := Diff(before, after, [], PathRules(prefix, patterns));
    PointersArePrinted(before, after, patterns, prefix);
    FunctionsExactly(before, after, [], PathRules(prefix, patterns));
    var e := EntryOfChange(prefix, es, c);
    CancelHead(prefix, Pointer(e.at), Pointer(p));
    PointerInjective(e.at, p);
    ReportPatches(before, after, PathRules(prefix, patterns), p, es);
  }

  /** Every listed change carries the leaves that its pointer names. */
  ghost predicate ReportsLeaves(before: Option<Value>, after: Option<Value>, prefix: string, cs: seq<Change>) {
    forall c, p :: c in cs && !c.redacted && c.path == prefix + Pointer(p) ==> CarriesLeaves(c, before, after, p)
  }

  /**
   * Where paths are printed as pointers, all listed changes carry the leaves exactly when no primitive
   * member, not secret, of a compared object bears a name that the object on the other side inherits.
   */
  lemma LeavesAreReported(before: Option<Value>, after: Option<Value>, patterns: seq<string>, prefix: string)
    requires PrintsPointers(before, after, patterns, prefix)
    ensures ReportsLeaves(before, after, prefix, Report(before, after, patterns, prefix))
      <==> NoFunctions(before, after, [], PathRules(prefix, patterns))
  {
    hide Diff, PrintsPointers, NoFunctions;
    var rules, cs := PathRules(prefix, patterns), Report(before, after, patterns, prefix);
    var es := Diff(before, after, [], rules);
    FunctionsExactly(before, after, [], rules);
    if NoFunctions(before, after, [], rules) {
      forall c, p | c in cs && !c.redacted && c.path == prefix + Pointer(p)
        ensures CarriesLeaves(c, before, after, p)
      {
        ListedChange(before, after, patterns, prefix, p, c);
      }
    } else {
      var e :| e in es && e.Foreign?;
      PointersArePrinted(before, after, patterns, prefix);
      ChangeOfEntry(prefix, es, e);
      ForeignSides(before, after, [], rules, e);
      assert !CarriesLeaves(Render(prefix, e), before, after, e.at);
    }
  }

  lemma ForeignSides(l: Option<Value>, r: Option<Value>, at: Path, rules: Rules, e: Entry)
    requires e in Diff(l, r, at, rules) && e.Foreign?
    ensures e.before.Some? != e.after.Some?
  {
    var p, s := ForeignOrigin(l, r, at, rules, e);
    hide Diff, Compared, At;
    FunctionEntry(l, r, at, rules, p, s, e);
  }

  /** A primitive member with an inherited name is removed: its reader is told that it became a function. */
  lemma RemovedNameIsKept(before: Option<Value>, after: Option<Value>, patterns: seq<string>, prefix: string, p: Path,
                          s: string)
    requires PrintsPointers(before, after, patterns, prefix)
    requires Compared(before, after, [], p, PathRules(prefix, patterns))
    requires ShowsFunction(At(before, p), At(after, p), [] + p, s, PathRules(prefix, patterns))
    requires s in At(before, p).value.members
    ensures var c := Change(prefix + Pointer(p + [s]), Given(At(before, p).value.members[s]), Inherited(s), false);
      c in Report(before, after, patterns, prefix)
    ensures PatchedBy(LeafSide(before, p + [s]), Report(before, after, patterns, prefix), prefix + Pointer(p + [s]))
      == Inherited(s)
  {
    hide PrintsPointers, Within, Diff, Compared;
    var rules, cs := PathRules(prefix, patterns), Report(before, after, patterns, prefix);
    var es := Diff(before, after, [], rules);
    var e := FunctionBelow(before, after, [], rules, p, s);
    assert [] + p == p;
    PointersArePrinted(before, after, patterns, prefix);
    ChangeOfEntry(prefix, es, e);
    ReportedOnce(before, after, patterns, prefix);
    FunctionEntry(before, after, [], rules, p, s, e);
  }

  lemma {:induction false} FunctionEntry(l: Option<Value>, r: Option<Value>, at: Path, rules: Rules, p: Path, s: string,
                                         e: Entry)
    requires Compared(l, r, at, p, rules) && ShowsFunction(At(l, p), At(r, p), at + p, s, rules)
    requires e in Diff(l, r, at, rules) && e.at == at + p + [s]
    ensures e == Foreign(e.at, s, Child(At(l, p), s), Child(At(r, p), s))
    decreases |p|
  {
    var k := if p == [] then s else p[0];
    var t := EntryOrigin(l, r, Segments(l, r).value, at, rules, e);
    PartExtends(l, r, t, at, rules, e);
    ExtendsChild(at, t, e.at);
    assert e.at[|at|] == k;
    if p != [] {
      ThroughHead(at, p);
      BothThere(l, r, p, rules, s);
      FunctionEntry(Child(l, k), Child(r, k), at + [k], rules, p[1..], s, e);
    } else {
      assert at + p == at;
    }
  }

  lemma {:induction false} AtThrough(v: Option<Value>, p: Path, q: Path)
    ensures At(v, p + q) == At(At(v, p), q)
    decreases |p|
  {
    if p == [] {
      assert p + q == q;
    } else {
      AtThrough(Child(v, p[0]), p[1..], q);
      assert (p + q)[1..] == p[1..] + q;
    }
  }

  /** Where a function is reported, both values have at most a primitive. */
  lemma BelowFunction(l: Option<Value>, r: Option<Value>, rules: Rules, e: Entry, p: Path)
    requires e in Diff(l, r, [], rules) && e.Foreign? && Extends(p, e.at) && p != e.at
    ensures Leaf(l, p).None? && Leaf(r, p).None?
  {
    var q, s := ForeignOrigin(l, r, [], rules, e);
    var rest := p[|e.at|..];
    assert e.at == q + [s] && [] + q == q && p == e.at + rest;
    hide Diff, Compared;
    AtThrough(l, q, [s]);
    AtThrough(r, q, [s]);
    assert At(l, e.at) == Child(At(l, q), s) && At(r, e.at) == Child(At(r, q), s);
    AtThrough(l, e.at, rest);
    AtThrough(r, e.at, rest);
    NoLeafBelow(At(l, e.at), rest);
    NoLeafBelow(At(r, e.at), rest);
  }

  /** No primitive member with an inherited name is removed from a compared object, unless it is secret. */
  ghost predicate NoneRemoved(l: Option<Value>, r: Option<Value>, at: Path, rules: Rules) {
    forall p, s :: Compared(l, r, at, p, rules) && ShowsFunction(At(l, p), At(r, p), at + p, s, rules) ==>
      s !in KeySet(At(l, p))
  }

  /** An added member with an inherited name is reported with its new value, though not as new. */
  lemma AddedNamePatches(l: Option<Value>, r: Option<Value>, rules: Rules, e: Entry)
    requires e in Diff(l, r, [], rules) && e.Foreign? && NoneRemoved(l, r, [], rules)
    ensures e.after.Some? && e.after == Leaf(r, e.at)
  {
    var q, s := ForeignOrigin(l, r, [], rules, e);
    assert e.at == q + [s] && [] + q == q;
    FunctionEntry(l, r, [], rules, q, s, e);
    hide Diff, Compared;
    AtThrough(r, q, [s]);
    assert At(r, e.at) == Child(At(r, q), s);
    assert s !in KeySet(At(l, q));
  }

  /**
   * Applying the listed changes to the map from pointers to leaves of the old value gives that of the new
   * value, at every pointer that no redacted change covers.
   */
  ghost predicate PatchesAt(before: Option<Value>, after: Option<Value>, cs: seq<Change>, prefix: string, p: Path) {
    !CoveredBy(cs, prefix + Pointer(p)) ==>
      PatchedBy(LeafSide(before, p), cs, prefix + Pointer(p)) == LeafSide(after, p)
  }

  /** Above a pointer that is neither covered nor listed, only functions and primitives can be reported. */
  lemma NoRedactionAbove(before: Option<Value>, after: Option<Value>, patterns: seq<string>, prefix: string, p: Path,
                           e: Entry)
    requires PrintsPointers(before, after, patterns, prefix)
    requires var cs := Report(before, after, patterns, prefix);
      !CoveredBy(cs, prefix + Pointer(p)) && !ListedBy(cs, prefix + Pointer(p))
    requires e in Diff(before, after, [], PathRules(prefix, patterns)) && Extends(p, e.at)
    ensures (e.Foreign? || e.Plain?) && p != e.at
  {
    hide Diff, Within, PrintsPointers, Pointer;
    PointersArePrinted(before, after, patterns, prefix);
    ChangeOfEntry(prefix, Diff(before, after, [], PathRules(prefix, patterns)), e);
    WithinPrefix(prefix, p, e.at);
    var c := Render(prefix, e);
    assert c in Report(before, after, patterns, prefix) && c.path == prefix + Pointer(e.at);
    assert !c.redacted && p != e.at;
  }

  lemma UnlistedPointer(before: Option<Value>, after: Option<Value>, patterns: seq<string>, prefix: string, p: Path)
    requires PrintsPointers(before, after, patterns, prefix)
    requires var cs := Report(before, after, patterns, prefix);
      !CoveredBy(cs, prefix + Pointer(p)) && !ListedBy(cs, prefix + Pointer(p))
    ensures Leaf(before, p) == Leaf(after, p)
  {
    hide Diff, Leaf, Report, CoveredBy, ListedBy, PrintsPointers, PathRules, Pointer;
    var rules := PathRules(prefix, patterns);
    var es := Diff(before, after, [], rules);
    if e :| e in es && !e.Plain? && Extends(p, e.at) {
      NoRedactionAbove(before, after, patterns, prefix, p, e);
      BelowFunction(before, after, rules, e, p);
    } else {
      assert [] + p == p;
      if e :| e in es && e.at == p {
        NoRedactionAbove(before, after, patterns, prefix, p, e);
      }
      UnlistedLeaves(before, after, [], rules, p);
    }
  }

  lemma ListedPointer(before: Option<Value>, after: Option<Value>, patterns: seq<string>, prefix: string, p: Path,
                      c: Change)
    requires PrintsPointers(before, after, patterns, prefix)
    requires NoneRemoved(before, after, [], PathRules(prefix, patterns))
    requires c in Report(before, after, patterns, prefix) && !c.redacted && c.path == prefix + Pointer(p)
    ensures c.after == LeafSide(after, p)
  {
    hide Diff, PrintsPointers, NoneRemoved;
    var rules := PathRules(prefix, patterns);
    var es := Diff(before, after, [], rules);
    PointersArePrinted(before, after, patterns, prefix);
    var e := EntryOfChange(prefix, es, c);
    CancelHead(prefix, Pointer(e.at), Pointer(p));
    PointerInjective(e.at, p);
    if e.Foreign? {
      AddedNamePatches(before, after, rules, e);
    } else {
      assert [] + p == p;
      PlainEntries(before, after, [], rules, p, e);
    }
  }

  /** A reported function is a listed change, and no redacted change covers its place. */
  lemma FunctionIsListed(before: Option<Value>, after: Option<Value>, patterns: seq<string>, prefix: string, e: Entry)
    requires PrintsPointers(before, after, patterns, prefix)
    requires e in Diff(before, after, [], PathRules(prefix, patterns)) && e.Foreign?
    ensures !CoveredBy(Report(before, after, patterns, prefix), prefix + Pointer(e.at))
  {
    hide Diff, Within, PrintsPointers;
    var rules, cs := PathRules(prefix, patterns), Report(before, after, patterns, prefix);
    var es := Diff(before, after, [], rules);
    PointersArePrinted(before, after, patterns, prefix);
    EntriesApart(before, after, [], rules);
    forall c | c in cs && c.redacted
      ensures !Within(prefix + Pointer(e.at), c.path)
    {
      var f := EntryOfChange(prefix, es, c);
      WithinPrefix(prefix, e.at, f.at);
      var i :| 0 <= i < |es| && es[i] == e;
      var j :| 0 <= j < |es| && es[j] == f;
      assert i != j;
    }
  }

  /**
   * The report as its readers use it: where paths are printed as pointers, it patches the leaves exactly
   * when no primitive member with an inherited name, not secret, is removed from a compared object.
   */
  lemma PointersPatch(before: Option<Value>, after: Option<Value>, patterns: seq<string>, prefix: string)
    requires PrintsPointers(before, after, patterns, prefix)
    ensures (forall p :: PatchesAt(before, after, Report(before, after, patterns, prefix), prefix, p))
      <==> NoneRemoved(before, after, [], PathRules(prefix, patterns))
  {
    hide Diff, Report, Within, PrintsPointers, NoneRemoved;
    var rules, cs := PathRules(prefix, patterns), Report(before, after, patterns, prefix);
    if NoneRemoved(before, after, [], rules) {
      forall p
        ensures PatchesAt(before, after, cs, prefix, p)
      {
        if !CoveredBy(cs, prefix + Pointer(p)) && !ListedBy(cs, prefix + Pointer(p)) {
          UnlistedPointer(before, after, patterns, prefix, p);
        }
        if ListedBy(cs, prefix + Pointer(p)) {
          var c :| c in cs && !c.redacted && c.path == prefix + Pointer(p)
            && PatchedBy(LeafSide(before, p), cs, prefix + Pointer(p)) == c.after;
          ListedPointer(before, after, patterns, prefix, p, c);
        }
      }
    } else {
      RemovedIsMissed(before, after, patterns, prefix);
    }
  }

  lemma RemovedIsMissed(before: Option<Value>, after: Option<Value>, patterns: seq<string>, prefix: string)
    requires PrintsPointers(before, after, patterns, prefix)
    requires !NoneRemoved(before, after, [], PathRules(prefix, patterns))
    ensures exists p :: !PatchesAt(before, after, Report(before, after, patterns, prefix), prefix, p)
  {
    hide PrintsPointers, Report, PatchesAt, PathRules, Compared, At, ShowsFunction;
    var rules := PathRules(prefix, patterns);
    var p, s :| Compared(before, after, [], p, rules)
      && ShowsFunction(At(before, p), At(after, p), [] + p, s, rules) && s in KeySet(At(before, p));
    RemovedIsMissedAt(before, after, patterns, prefix, p, s);
  }

  lemma RemovedIsMissedAt(before: Option<Value>, after: Option<Value>, patterns: seq<string>, prefix: string, p: Path,
                          s: string)
    requires PrintsPointers(before, after, patterns, prefix)
    requires Compared(before, after, [], p, PathRules(prefix, patterns))
    requires ShowsFunction(At(before, p), At(after, p), [] + p, s, PathRules(prefix, patterns))
    requires s in KeySet(At(before, p))
    ensures !PatchesAt(before, after, Report(before, after, patterns, prefix), prefix, p + [s])
  {
    var e := FunctionBelow(before, after, [], PathRules(prefix, patterns), p, s);
    hide Diff, Report, PrintsPointers, Compared, ShowsFunction, PatchesAt, At, PathRules, PatchedBy, CoveredBy, Pointer;
    RemovedNameIsKept(before, after, patterns, prefix, p, s);
    FunctionIsListed(before, after, patterns, prefix, e);
    assert [] + p + [s] == p + [s];
    FunctionIsNoLeaf(before, after, Report(before, after, patterns, prefix), prefix, p + [s], s);
  }

  lemma FunctionIsNoLeaf(before: Option<Value>, after: Option<Value>, cs: seq<Change>, prefix: string, p: Path,
                         name: string)
    requires !CoveredBy(cs, prefix + Pointer(p))
    requires PatchedBy(LeafSide(before, p), cs, prefix + Pointer(p)) == Inherited(name)
    ensures !PatchesAt(before, after, cs, prefix, p)
  {
    hide CoveredBy, PatchedBy, Pointer;
  }

  /**
   * Without printed pointers, unless the whole is a secret, the change of the root leaf is printed under the
   * pointer of another part, and reading the report by pointers misses it.
   */
  lemma RootIsMissed(before: Option<Value>, after: Option<Value>, patterns: seq<string>)
    requires !PrintsPointers(before, after, patterns, "") && !Sensitive("", patterns)
    ensures var cs := Report(before, after, patterns, "");
      !CoveredBy(cs, Pointer([])) && PatchedBy(LeafSide(before, []), cs, Pointer([])) != LeafSide(after, [])
  {
    var rules := PathRules("", patterns);
    assert "" + Pointer([]) == "";
    assert Diff(before, after, [], rules) == [Plain([], before, after)];
    assert Report(before, after, patterns, "") == [Change("/", AsSide(before), AsSide(after), false)];
  }

  lemma SecretWhole(before: Option<Value>, after: Option<Value>, patterns: seq<string>)
    requires before != after && Sensitive("", patterns)
    ensures Report(before, after, patterns, "")
      == [Change("/", AsSide(Hidden(before)), AsSide(Hidden(after)), true)]
  {
    hide Sensitive, Segments;
    assert "" + Pointer([]) == "";
    assert Diff(before, after, [], PathRules("", patterns)) == [Redacted([], Hidden(before), Hidden(after))];
  }

  /** A secret whole is reported as "/", which covers the member with the empty key and nothing else. */
  lemma SecretRootIsMissed(before: Option<Value>, after: Option<Value>, patterns: seq<string>, p: Path)
    requires !PrintsPointers(before, after, patterns, "") && Sensitive("", patterns)
    ensures var cs := Report(before, after, patterns, "");
      (!CoveredBy(cs, Pointer(p)) ==> PatchedBy(LeafSide(before, p), cs, Pointer(p)) == LeafSide(after, p))
      <==> (p != [] && p[0] == "") || Leaf(before, p) == Leaf(after, p)
  {
    var cs := Report(before, after, patterns, "");
    SecretWhole(before, after, patterns);
    assert Pointer([""]) == "/";
    hide Report, Sensitive, Leaf, Within, Pointer;
    PointerWithin(p, [""]);
    assert cs[0] in cs;
    assert Extends(p, [""]) <==> p != [] && p[0] == "";
    assert CoveredBy(cs, Pointer(p)) <==> Within(Pointer(p), "/");
    assert !ListedBy(cs, Pointer(p));
  }

  /**
   * The pointer "/" names both the whole value and its member with the empty key: these two
   * comparisons have the same report although their leaves differ. The leaves of the new value are
   * therefore determined by paths (ReportPatches), not by the printed pointers alone.
   */
  lemma RootPointerIsAmbiguous()
    ensures Report(None, Some(Num(5)), [], "") == Report(Some(Obj(map[])), Some(Obj(map["" := Num(5)])), [], "")
    ensures Leaf(None, []) == Leaf(Some(Obj(map[])), [])
    ensures Leaf(Some(Num(5)), []) != Leaf(Some(Obj(map["" := Num(5)])), [])
  {
    RootIsPublic();
    var rules := PathRules("", []);
    EmptyKeyAdded(rules);
    var es := [Plain([], None, Some(Num(5)))];
    var fs := [Plain([""], None, Some(Num(5)))];
    assert Render("", es[0]) == Change("/", Missing, Given(Num(5)), false);
    assert Render("", fs[0]) == Change("/", Missing, Given(Num(5)), false);
    assert RenderAll("", es) == RenderAll("", fs);
  }

  lemma {:induction false} PlainIsUnescaped(k: string)
    requires '~' !in k && '/' !in k
    ensures EscapeSegment(k) == k
  {
    if k != "" {
      PlainIsUnescaped(k[1..]);
      assert k == [k[0]] + k[1..];
    }
  }

  lemma PointerToMember(k: string)
    requires '~' !in k && '/' !in k
    ensures "" + Pointer([k]) == "/" + k
  {
    PlainIsUnescaped(k);
    assert Pointer([k][1..]) == "";
    assert Pointer([k]) == "/" + k + "";
  }

  lemma MemberIsNoName(k: string)
    requires '/' !in k && !SensitiveWord(LowerAscii(k))
    ensures !SensitiveName("/" + k)
  {
    assert Join(["", k], '/') == "" + ['/'] + k;
    assert "" + ['/'] + k == "/" + k;
    JoinSplit(["", k], '/');
    assert !SensitiveWord(LowerAscii(""));
  }

  lemma FunctionNameDiff(k: string, rules: Rules)
    requires k in rules.inherited && !rules.secret([]) && !rules.secret([k])
    ensures Diff(Some(Obj(map[k := Num(5)])), Some(Obj(map[])), [], rules) == [Foreign([k], k, Some(Num(5)), None)]
  {
    var member, empty := Some(Obj(map[k := Num(5)])), Some(Obj(map[]));
    var ks := CodeUnitOrder(KeySet(member) + KeySet(empty));
    OnlyKey(ks, k);
    hide CodeUnitOrder, SortedBy, Distinct;
    assert [] + [k] == [k];
    assert DiffPart(member, empty, k, [], rules) == [Foreign([k], k, Some(Num(5)), None)];
    assert DiffEach(member, empty, ks[1..], [], rules) == [];
  }

  lemma RenderOne(prefix: string, e: Entry)
    ensures RenderAll(prefix, [e]) == [Render(prefix, e)]
  {
    hide Render;
  }

  lemma MemberIsPublic(k: string)
    requires '~' !in k && '/' !in k && !SensitiveWord(LowerAscii(k))
    ensures !PathRules("", []).secret([]) && !PathRules("", []).secret([k])
  {
    RootIsPublic();
    PointerToMember(k);
    MemberIsNoName(k);
    hide SensitiveWord, SensitiveName, Pointer, LowerAscii;
  }

  lemma RenderFunction(k: string)
    requires '~' !in k && '/' !in k
    ensures Render("", Foreign([k], k, Some(Num(5)), None)) == Change("/" + k, Given(Num(5)), Inherited(k), false)
  {
    PointerToMember(k);
    hide Pointer;
  }

  /** A removed member that is named like a function of all objects is reported as changed to that function. */
  lemma FunctionNameIsReported(k: string)
    requires k in PathRules("", []).inherited && '~' !in k && '/' !in k && !SensitiveWord(LowerAscii(k))
    ensures Report(Some(Obj(map[k := Num(5)])), Some(Obj(map[])), [], "")
         == [Change("/" + k, Given(Num(5)), Inherited(k), false)]
  {
    MemberIsPublic(k);
    RenderFunction(k);
    hide SensitiveWord, PathRules, Pointer, Diff, Render, RenderAll, LowerAscii;
    FunctionNameDiff(k, PathRules("", []));
    RenderOne("", Foreign([k], k, Some(Num(5)), None));
  }

  lemma OnlyKey(ks: seq<string>, k: string)
    requires Elements(ks) == {k} && SortedBy(ks, CodeUnitLess)
    ensures ks == [k]
  {
    CodeUnitIsTotal();
    assert k in Elements([k]) && Elements([k]) == {k};
    SortedUnique(ks, [k], CodeUnitLess);
  }

  lemma ConstructorIsPlain()
    ensures '~' !in "constructor" && '/' !in "constructor" && LowerAscii("constructor") == "constructor"
  {
    hide LowerAscii;
    Spelled("constructor", "constructor");
  }

  lemma ConstructorIsNoName()
    ensures "constructor" in PathRules("", []).inherited && !SensitiveWord("constructor")
  {
  }

  lemma ConstructorIsReported()
    ensures Report(Some(Obj(map["constructor" := Num(5)])), Some(Obj(map[])), [], "")
         == [Change("/" + "constructor", Given(Num(5)), Inherited("constructor"), false)]
  {
    hide *;
    ConstructorIsPlain();
    ConstructorIsNoName();
    FunctionNameIsReported("constructor");
  }

  lemma EmptyKeyAdded(rules: Rules)
    requires !rules.secret([]) && !rules.secret([""]) && "" !in rules.inherited
    ensures Diff(None, Some(Num(5)), [], rules) == [Plain([], None, Some(Num(5)))]
    ensures Diff(Some(Obj(map[])), Some(Obj(map["" := Num(5)])), [], rules) == [Plain([""], None, Some(Num(5)))]
  {
    var empty, member := Some(Obj(map[])), Some(Obj(map["" := Num(5)]));
    var ks := CodeUnitOrder(KeySet(empty) + KeySet(member));
    assert Elements(ks) == {""};
    assert "" in Elements(ks);
    CodeUnitIsTotal();
    assert Elements([""]) == {""};
    SortedUnique(ks, [""], CodeUnitLess);
    assert [] + [""] == [""];
    assert Diff(Child(empty, ""), Child(member, ""), [""], rules) == [Plain([""], None, Some(Num(5)))];
    assert DiffEach(empty, member, ks[1..], [], rules) == [];
  }

  lemma RootIsPublic()
    ensures !PathRules("", []).secret([]) && !PathRules("", []).secret([""])
  {
    assert "" + Pointer([]) == "" && "" + Pointer([""]) == "/";
    EmptyIsNoName("");
    EmptyIsNoName("/");
  }

  lemma EmptyIsNoName(path: string)
    requires path == "" || path == "/"
    ensures !SensitiveName(path)
  {
    assert Split("", '/') == [""];
    assert Split("/", '/') == [""] + Split("", '/');
    assert forall segment :: segment in Split(path, '/') ==> segment == "";
    assert !SensitiveWord(LowerAscii(""));
  }

  // ---- The recursive visit, as the source runs it ---------------------------------------

  lemma ChildPath(prefix: string, path: string, at: Path, k: string)
    requires path == prefix + Pointer(at)
    ensures path + "/" + EscapeSegment(k) == prefix + Pointer(at + [k])
  {
    PointerChild(at, k);
    Assoc(prefix + Pointer(at), "/", EscapeSegment(k));
    Assoc(prefix, Pointer(at), "/" + EscapeSegment(k));
    Assoc(Pointer(at), "/", EscapeSegment(k));
  }

  /** `stableConfigJson(value)`; None is the text of undefined. */
  function StableText(v: Option<Value>): Option<string> {
    match v
    case Some(w) => Some(Text(w, OwnKeyOrder))
    case None => None
  }

  lemma StableTextEquality(l: Option<Value>, r: Option<Value>)
    ensures StableText(l) == StableText(r) <==> l == r
  {
    if l.Some? && r.Some? {
      TextInjective(l.value, r.value, OwnKeyOrder);
    }
  }

  /** `value?.[i]` of an array or a missing value. */
  function Item(v: Option<Value>, i: nat): Option<Value> {
    if i < Length(v) then Some(v.value.items[i]) else None
  }

  lemma IndexChild(v: Option<Value>, i: nat)
    requires IsArray(v) || v.None?
    ensures Child(v, Decimal.Digits(i)) == Item(v, i)
  {
    Decimal.DigitsValue(i);
  }

  lemma NumeralUnescaped(s: string)
    requires Decimal.AllDigits(s)
    ensures EscapeSegment(s) == s
  {
  }

  /** One round of either loop: the changes of part `n` come before those of the remaining parts. */
  lemma OneMore(result: seq<Change>, prefix: string, l: Option<Value>, r: Option<Value>, segments: seq<string>, n: nat,
                at: Path, rules: Rules)
    requires (l.Some? || r.Some?) && n < |segments|
    ensures var next := DiffPart(l, r, segments[n], at, rules);
      result + RenderAll(prefix, DiffEach(l, r, segments[n..], at, rules))
        == result + RenderAll(prefix, next) + RenderAll(prefix, DiffEach(l, r, segments[n + 1..], at, rules))
  {
    assert segments[n..][0] == segments[n] && segments[n..][1..] == segments[n + 1..];
    Appended(result, prefix, DiffPart(l, r, segments[n], at, rules), DiffEach(l, r, segments[n + 1..], at, rules));
  }

  lemma NoMore(result: seq<Change>, prefix: string, l: Option<Value>, r: Option<Value>, segments: seq<string>, n: nat,
               at: Path, rules: Rules)
    requires (l.Some? || r.Some?) && n == |segments|
    ensures result + RenderAll(prefix, DiffEach(l, r, segments[n..], at, rules)) == result
  {
    assert segments[n..] == [];
    assert DiffEach(l, r, [], at, rules) == [];
  }

  lemma Appended(changes: seq<Change>, prefix: string, es: seq<Entry>, fs: seq<Entry>)
    ensures changes + RenderAll(prefix, es + fs) == changes + RenderAll(prefix, es) + RenderAll(prefix, fs)
  {
  }

  /** The report of one comparison, by the branch of `visit` that handles it. */
  lemma VisitCases(l: Option<Value>, r: Option<Value>, path: string, patterns: seq<string>, prefix: string, at: Path,
                   rules: Rules, cs: seq<Change>)
    requires path == prefix + Pointer(at) && rules == PathRules(prefix, patterns)
    requires cs == RenderAll(prefix, Diff(l, r, at, rules))
    ensures l == r ==> cs == []
    ensures l != r && Sensitive(path, patterns) ==> cs == [HiddenChange(path, AsSide(l), AsSide(r))]
    ensures l != r && !Sensitive(path, patterns) && Segments(l, r).Some? ==>
      cs == RenderAll(prefix, DiffEach(l, r, Segments(l, r).value, at, rules))
    ensures l != r && !Sensitive(path, patterns) && Segments(l, r).None? ==>
      cs == [if IsArray(l) || IsArray(r) || IsObject(l) || IsObject(r)
             then Change(path, CHANGED, CHANGED, true)
             else Change(OrRoot(path), AsSide(l), AsSide(r), false)]
  {
  }

  function HiddenSide(side: Side): Side {
    if side.Missing? then Missing else Given(Str("[redacted]"))
  }

  function HiddenChange(path: string, left: Side, right: Side): Change {
    Change(OrRoot(path), HiddenSide(left), HiddenSide(right), true)
  }

  /** `value?.[key]` on an object or undefined: an own member, or else an inherited function, or undefined. */
  function Member(v: Option<Value>, key: string): Side {
    match v
    case Some(Obj(ms)) =>
      if key in ms then Given(ms[key]) else if key in OBJECT_FUNCTIONS then Inherited(key) else Missing
    case _ => Missing
  }

  /** `stableConfigJson(value)` of a side; undefined and functions have no text. */
  function SideText(side: Side): Option<string> {
    StableText(ValueOf(side))
  }

  /** What one visit appends: the difference of two values, or that of a member and an inherited function. */
  function Visited(left: Side, right: Side, at: Path, rules: Rules): seq<Entry> {
    if (left.Inherited? || right.Inherited?) && (left.Given? || right.Given?) then
      DiffInherited(ValueOf(left), ValueOf(right), at, if left.Inherited? then left.name else right.name, rules)
    else Diff(ValueOf(left), ValueOf(right), at, rules)
  }

  lemma PartIsVisited(l: Option<Value>, r: Option<Value>, key: string, at: Path, rules: Rules)
    requires (IsObject(l) || l.None?) && (IsObject(r) || r.None?) && (IsObject(l) || IsObject(r))
    requires rules.inherited == OBJECT_FUNCTIONS && (Child(l, key).Some? || Child(r, key).Some?)
    ensures Visited(Member(l, key), Member(r, key), at + [key], rules) == DiffPart(l, r, key, at, rules)
    ensures !(Member(l, key).Inherited? && Member(r, key).Inherited?)
  {
    hide Diff;
  }

  /** The changes of a member against an inherited function, by the branch of `visit` that handles it. */
  lemma InheritedCases(left: Side, right: Side, path: string, patterns: seq<string>, prefix: string, at: Path)
    requires path == prefix + Pointer(at) && at != [] && left.Inherited? != right.Inherited?
    requires left.Given? || right.Given?
    ensures var rules, l, r := PathRules(prefix, patterns), ValueOf(left), ValueOf(right);
      RenderAll(prefix, Visited(left, right, at, rules))
        == [if Sensitive(path, patterns) then HiddenChange(path, left, right)
            else if HasParts(l) || HasParts(r) then Change(path, CHANGED, CHANGED, true)
            else Change(OrRoot(path), left, right, false)]
  {
  }

  /** The inner function `visit`: appends the changes between `left` and `right` to `changes`. */
  method Visit(left: Side, right: Side, path: string, patterns: seq<string>, changes: seq<Change>,
               ghost prefix: string, ghost at: Path)
    returns (result: seq<Change>)
    requires path == prefix + Pointer(at)
    requires left.Inherited? || right.Inherited? ==> at != [] && (left.Given? || right.Given?)
    ensures result == changes + RenderAll(prefix, Visited(left, right, at, PathRules(prefix, patterns)))
    decreases left.Given?, right.Given?, Inner(ValueOf(left)), Inner(ValueOf(right)), 1
  {
    hide Diff, DiffInherited, RenderAll, Sensitive, Pointer;
    ghost var rules := PathRules(prefix, patterns);
    var l, r := ValueOf(left), ValueOf(right);
    if left.Inherited? || right.Inherited? {
      InheritedCases(left, right, path, patterns, prefix, at);
    } else {
      VisitCases(l, r, path, patterns, prefix, at, rules, RenderAll(prefix, Diff(l, r, at, rules)));
    }
    StableTextEquality(l, r);
    if SideText(left) == SideText(right) {
      return changes;
    }
    if Sensitive(path, patterns) {
      return changes + [HiddenChange(path, left, right)];
    }
    var lobject, robject := IsObject(l), IsObject(r);
    if (lobject || left.Missing?) && (robject || right.Missing?) && (lobject || robject) {
      var keys := CodeUnitOrder(KeySet(l) + KeySet(r));
      result := VisitMembers(l, r, keys, path, patterns, changes, prefix, at);
    } else if IsArray(l) || IsArray(r) {
      if (IsArray(l) || left.Missing?) && (IsArray(r) || right.Missing?) {
        result := VisitItems(l, r, path, patterns, changes, prefix, at);
      } else {
        result := changes + [Change(path, CHANGED, CHANGED, true)];
      }
    } else if lobject || robject {
      result := changes + [Change(path, CHANGED, CHANGED, true)];
    } else {
      result := changes + [Change(OrRoot(path), left, right, false)];
    }
  }

  /** The loop of `visit` over the keys of two objects. */
  method VisitMembers(left: Option<Value>, right: Option<Value>, keys: seq<string>, path: string, patterns: seq<string>,
                      changes: seq<Change>, ghost prefix: string, ghost at: Path)
    returns (result: seq<Change>)
    requires path == prefix + Pointer(at)
    requires (IsObject(left) || left.None?) && (IsObject(right) || right.None?) && (IsObject(left) || IsObject(right))
    requires Elements(keys) == KeySet(left) + KeySet(right)
    ensures result == changes + RenderAll(prefix, DiffEach(left, right, keys, at, PathRules(prefix, patterns)))
    decreases left.Some?, right.Some?, Inner(left), Inner(right), 0
  {
    hide Diff, DiffEach, DiffPart, Visited, RenderAll, Render, Sensitive, Pointer, EscapeSegment, SortedBy, Distinct;
    ghost var rules := PathRules(prefix, patterns);
    ghost var total := changes + RenderAll(prefix, DiffEach(left, right, keys, at, rules));
    result := changes;
    assert keys[0..] == keys;
    for n := 0 to |keys|
      invariant result + RenderAll(prefix, DiffEach(left, right, keys[n..], at, rules)) == total
    {
      var key := keys[n];
      assert key in Elements(keys);
      ChildPath(prefix, path, at, key);
      OneMore(result, prefix, left, right, keys, n, at, rules);
      PartIsVisited(left, right, key, at, rules);
      result := Visit(Member(left, key), Member(right, key), path + "/" + EscapeSegment(key), patterns,
                      result, prefix, at + [key]);
    }
    NoMore(result, prefix, left, right, keys, |keys|, at, rules);
  }

  /** The loop of `visit` over the indices of two arrays. */
  method VisitItems(left: Option<Value>, right: Option<Value>, path: string, patterns: seq<string>,
                    changes: seq<Change>, ghost prefix: string, ghost at: Path)
    returns (result: seq<Change>)
    requires path == prefix + Pointer(at)
    requires (IsArray(left) || left.None?) && (IsArray(right) || right.None?) && (IsArray(left) || IsArray(right))
    ensures result == changes + RenderAll(prefix, DiffEach(left, right, Indices(Max(Length(left), Length(right))), at,
                                                           PathRules(prefix, patterns)))
    decreases left.Some?, right.Some?, Inner(left), Inner(right), 0
  {
    hide Diff, DiffEach, RenderAll, Render, Sensitive, Pointer, EscapeSegment, SortedBy, Distinct;
    ghost var rules := PathRules(prefix, patterns);
    ghost var indices := Indices(Max(Length(left), Length(right)));
    ghost var total := changes + RenderAll(prefix, DiffEach(left, right, indices, at, rules));
    result := changes;
    assert indices[0..] == indices;
    for i := 0 to Max(Length(left), Length(right))
      invariant result + RenderAll(prefix, DiffEach(left, right, indices[i..], at, rules)) == total
    {
      var segment := Decimal.Digits(i);
      Decimal.DigitsValue(i);
      NumeralUnescaped(segment);
      ChildPath(prefix, path, at, segment);
      IndexChild(left, i);
      IndexChild(right, i);
      OneMore(result, prefix, left, right, indices, i, at, rules);
      result := Visit(AsSide(Item(left, i)), AsSide(Item(right, i)), path + "/" + segment, patterns, result, prefix,
                      at + [segment]);
    }
    NoMore(result, prefix, left, right, indices, |indices|, at, rules);
  }

  method ConfigChanges(before: Option<Value>, after: Option<Value>, sensitivePaths: seq<string>, prefix: string)
    returns (changes: seq<Change>)
    ensures changes == Report(before, after, sensitivePaths, prefix)
    ensures forall c :: c in changes && IsSecretPath(c.path, sensitivePaths) ==> HidesValues(c)
    ensures forall c :: c in changes ==> CarriesPrimitives(c)
  {
    assert prefix + Pointer([]) == prefix;
    changes := Visit(AsSide(before), AsSide(after), prefix, sensitivePaths, [], prefix, []);
    forall c | c in changes
      ensures (IsSecretPath(c.path, sensitivePaths) ==> HidesValues(c)) && CarriesPrimitives(c)
    {
      SecretsAreHidden(before, after, sensitivePaths, prefix, c);
    }
  }
}
