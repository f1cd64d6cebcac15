/** Key orders: what `Array.prototype.sort` on strings computes from a set of distinct keys. */
module Ordering {
  import Decimal

  type Less = (string, string) -> bool

  ghost predicate TotalOrder(less: Less) {
    && (forall a: string :: !less(a, a))
    && (forall a: string, b: string :: less(a, b) || a == b || less(b, a))
    && (forall a: string, b: string, c: string :: less(a, b) && less(b, c) ==> less(a, c))
  }

  ghost predicate SortedBy(ks: seq<string>, less: Less) {
    forall i, j :: 0 <= i < j < |ks| ==> less(ks[i], ks[j])
  }

  ghost predicate Distinct<T(!new)>(ks: seq<T>) {
    forall i, j :: 0 <= i < j < |ks| ==> ks[i] != ks[j]
  }

  function Elements<T>(ks: seq<T>): set<T> {
    set k | k in ks
  }

  /** One step of a loop that collects the keys seen so far in a set. */
  lemma SeenOneMore<T(!new)>(ks: seq<T>, i: nat)
    requires i < |ks| && Distinct(ks[..i])
    ensures Elements(ks[..i + 1]) == Elements(ks[..i]) + {ks[i]}
    ensures ks[i] !in Elements(ks[..i]) ==> Distinct(ks[..i + 1])
    ensures ks[i] in Elements(ks[..i]) ==> !Distinct(ks)
  {
    assert ks[..i + 1] == ks[..i] + [ks[i]];
    if ks[i] in Elements(ks[..i]) {
      var j :| 0 <= j < i && ks[..i][j] == ks[i];
      assert ks[j] == ks[i];
    }
  }

  lemma {:induction false} DistinctCount<T(!new)>(ks: seq<T>)
    requires Distinct(ks)
    ensures |Elements(ks)| == |ks|
  {
    if ks != [] {
      var n := |ks| - 1;
      DistinctCount(ks[..n]);
      assert ks[..n + 1] == ks;
      SeenOneMore(ks, n);
      assert ks[n] !in Elements(ks[..n]);
    }
  }

  /** Distinct keys drawn from as many distinct keys are all of them. */
  lemma Pigeonhole<T(!new)>(a: seq<T>, b: seq<T>)
    requires Distinct(a) && Distinct(b) && |a| == |b| && Elements(a) <= Elements(b)
    ensures Elements(a) == Elements(b)
  {
    DistinctCount(a);
    DistinctCount(b);
    SubsetSameSize(Elements(a), Elements(b));
  }

  lemma SubsetSameSize<T>(a: set<T>, b: set<T>)
    requires a <= b && |a| == |b|
    ensures a == b
  {
    assert |b - a| == |b| - |a|;
  }

  predicate IsLeast(k: string, s: set<string>, less: Less) {
    k in s && forall o | o in s && o != k :: less(k, o)
  }

  lemma {:induction false} LeastExists(s: set<string>, less: Less)
    requires TotalOrder(less) && s != {}
    ensures exists k :: IsLeast(k, s, less)
  {
    var k :| k in s;
    var rest := s - {k};
    if rest == {} {
      assert forall o | o in s && o != k :: o in rest;
      assert IsLeast(k, s, less);
    } else {
      LeastExists(rest, less);
      var m :| IsLeast(m, rest, less);
      assert forall o | o in s && o != k :: o in rest;
      if less(k, m) {
        assert IsLeast(k, s, less);
      } else {
        assert IsLeast(m, s, less);
      }
    }
  }

  /** The keys of `s`, ascending. */
  function Ascending(s: set<string>, less: Less): (ks: seq<string>)
    requires TotalOrder(less)
    ensures SortedBy(ks, less) && Elements(ks) == s
  {
    if s == {} then []
    else
      LeastExists(s, less);
      var k :| IsLeast(k, s, less);
      var rest := Ascending(s - {k}, less);
      LeastFirst(k, s, rest, less);
      [k] + rest
  }

  lemma LeastFirst(k: string, s: set<string>, rest: seq<string>, less: Less)
    requires IsLeast(k, s, less) && SortedBy(rest, less) && Elements(rest) == s - {k}
    ensures SortedBy([k] + rest, less) && Elements([k] + rest) == s
  {
    forall i | 0 <= i < |rest|
      ensures less(k, rest[i])
    {
      assert rest[i] in Elements(rest);
    }
    assert Elements([k] + rest) == {k} + Elements(rest);
  }

  lemma SortedIsDistinct(ks: seq<string>, less: Less)
    requires TotalOrder(less) && SortedBy(ks, less)
    ensures Distinct(ks)
  {
  }

  /** A set has one ascending enumeration. */
  lemma {:induction false} SortedUnique(a: seq<string>, b: seq<string>, less: Less)
    requires TotalOrder(less) && SortedBy(a, less) && SortedBy(b, less)
    requires Elements(a) == Elements(b)
    ensures a == b
  {
    assert b != [] ==> b[0] in Elements(b);
    if a == [] {
      assert Elements(a) == {};
    } else {
      assert a[0] in Elements(a);
      assert b != [];
      assert a[0] in b && b[0] in a;
      assert a[0] == b[0];
      forall k
        ensures k in a[1..] <==> k in b[1..]
      {
        assert k in Elements(a) <==> k in Elements(b);
        assert k in a <==> k in b;
      }
      SortedUnique(a[1..], b[1..], less);
      assert a == [a[0]] + a[1..] && b == [b[0]] + b[1..];
    }
  }

  // ---- UTF-16 code unit order, the default order of `sort` -------------------------------

  /** Orders characters as their UTF-16 encodings: surrogate pairs come before U+E000..U+FFFF. */
  function CodeUnitRank(c: char): int {
    var n := c as int;
    if 0xE000 <= n < 0x10000 then n + 0x20_0000 else n
  }

  predicate CodeUnitLess(a: string, b: string) {
    if b == "" then false
    else if a == "" then true
    else if a[0] == b[0] then CodeUnitLess(a[1..], b[1..])
    else CodeUnitRank(a[0]) < CodeUnitRank(b[0])
  }

  /** The first place where the texts differ: one of them ends there, or its character comes first. */
  predicate ComesFirstAt(a: string, b: string, n: nat) {
    && n <= |a| && n < |b| && a[..n] == b[..n]
    && (n == |a| || CodeUnitBefore(a[n], b[n]))
  }

  /** By their UTF-16 encodings, all characters beyond U+FFFF lie between U+D7FF and U+E000. */
  predicate CodeUnitBefore(c: char, d: char) {
    if c as int > 0xFFFF && 0xE000 <= d as int <= 0xFFFF then true
    else if d as int > 0xFFFF && 0xE000 <= c as int <= 0xFFFF then false
    else c < d
  }

  lemma {:induction false} CodeUnitLessExactly(a: string, b: string)
    ensures CodeUnitLess(a, b) <==> exists n: nat :: ComesFirstAt(a, b, n)
  {
    if a != "" && b != "" && a[0] == b[0] {
      CodeUnitLessExactly(a[1..], b[1..]);
      forall n: nat | n > 0
        ensures ComesFirstAt(a, b, n) <==> ComesFirstAt(a[1..], b[1..], n - 1)
      {
        FirstAfter(a, b, n);
      }
      if n: nat :| ComesFirstAt(a[1..], b[1..], n) {
        assert ComesFirstAt(a, b, n + 1);
      }
    } else {
      assert ComesFirstAt(a, b, 0) <==> CodeUnitLess(a, b);
      assert forall n: nat :: n > 0 && n <= |a| && n < |b| ==> a[..n][0] == a[0] && b[..n][0] == b[0];
    }
  }

  lemma FirstAfter(a: string, b: string, n: nat)
    requires a != "" && b != "" && a[0] == b[0] && n > 0
    ensures ComesFirstAt(a, b, n) <==> ComesFirstAt(a[1..], b[1..], n - 1)
  {
    if n <= |a| && n < |b| {
      var x, y := a[1..][..n - 1], b[1..][..n - 1];
      assert a[..n] == [a[0]] + x && b[..n] == [b[0]] + y;
      assert ([a[0]] + x)[1..] == x && ([b[0]] + y)[1..] == y;
    }
  }

  lemma {:induction false} CodeUnitTransitive(a: string, b: string, c: string)
    requires CodeUnitLess(a, b) && CodeUnitLess(b, c)
    ensures CodeUnitLess(a, c)
  {
    if a != "" && a[0] == b[0] && b[0] == c[0] {
      CodeUnitTransitive(a[1..], b[1..], c[1..]);
    }
  }

  lemma {:induction false} CodeUnitIrreflexive(a: string)
    ensures !CodeUnitLess(a, a)
  {
    if a != "" {
      CodeUnitIrreflexive(a[1..]);
    }
  }

  lemma {:induction false} CodeUnitConnected(a: string, b: string)
    ensures CodeUnitLess(a, b) || a == b || CodeUnitLess(b, a)
  {
    if a != "" && b != "" && a[0] == b[0] {
      CodeUnitConnected(a[1..], b[1..]);
      assert a == [a[0]] + a[1..] && b == [b[0]] + b[1..];
    }
  }

  lemma CodeUnitIsTotal()
    ensures TotalOrder(CodeUnitLess)
  {
    forall a: string, b: string
      ensures !CodeUnitLess(a, a)
      ensures CodeUnitLess(a, b) || a == b || CodeUnitLess(b, a)
    {
      CodeUnitIrreflexive(a);
      CodeUnitConnected(a, b);
    }
    forall a: string, b: string, c: string | CodeUnitLess(a, b) && CodeUnitLess(b, c)
      ensures CodeUnitLess(a, c)
    {
      CodeUnitTransitive(a, b, c);
    }
  }

  /** `keys.sort()` for distinct keys. */
  function CodeUnitOrder(s: set<string>): (ks: seq<string>)
    ensures Distinct(ks) && Elements(ks) == s && SortedBy(ks, CodeUnitLess)
  {
    CodeUnitIsTotal();
    var ks := Ascending(s, CodeUnitLess);
    SortedIsDistinct(ks, CodeUnitLess);
    ks
  }

  // ---- Own-property order: array-index keys numerically, then the others as inserted ------

  /** Numeric order on canonical numerals: shorter first. */
  predicate NumericLess(a: string, b: string) {
    |a| < |b| || (|a| == |b| && CodeUnitLess(a, b))
  }

  lemma NumericIsTotal()
    ensures TotalOrder(NumericLess)
  {
    CodeUnitIsTotal();
  }

  /** Keys that JavaScript objects list first: canonical numerals below 2^32 - 1. */
  predicate IsArrayIndex(k: string) {
    Decimal.Canonical(k) && Decimal.Value(k) < 0xFFFF_FFFF
  }

  /** The array indices are the numerals of the numbers up to 2^32 - 2, in the order of these numbers. */
  lemma IsArrayIndexExactly(k: string)
    ensures IsArrayIndex(k) <==> exists n: nat :: n <= 4_294_967_294 && k == Decimal.Digits(n)
  {
    if IsArrayIndex(k) {
      Decimal.ValueDigits(k);
    }
    if n: nat :| n <= 4_294_967_294 && k == Decimal.Digits(n) {
      Decimal.DigitsValue(n);
    }
  }

  lemma {:induction false} CodeUnitSnoc(a: string, b: string, c: char, d: char)
    requires |a| == |b|
    ensures CodeUnitLess(a + [c], b + [d]) <==>
      CodeUnitLess(a, b) || (a == b && CodeUnitRank(c) < CodeUnitRank(d))
  {
    var x, y := a + [c], b + [d];
    assert (a != "" ==> x[0] == a[0] && x[1..] == a[1..] + [c]) && (b != "" ==> y[0] == b[0] && y[1..] == b[1..] + [d]);
    if a != "" {
      if a[0] == b[0] {
        CodeUnitSnoc(a[1..], b[1..], c, d);
        assert a == [a[0]] + a[1..] && b == [b[0]] + b[1..];
      }
    } else {
      assert x == [c] && y == [d];
    }
  }

  lemma {:induction false} NumericLessExactly(m: nat, n: nat)
    ensures NumericLess(Decimal.Digits(m), Decimal.Digits(n)) <==> m < n
    decreases m + n
  {
    if m >= 10 && n >= 10 {
      NumericLessExactly(m / 10, n / 10);
      var a, b := Decimal.Digits(m / 10), Decimal.Digits(n / 10);
      var c, d := Decimal.DigitChar(m % 10), Decimal.DigitChar(n % 10);
      if |a| == |b| {
        CodeUnitSnoc(a, b, c, d);
      }
      assert a == b <==> m / 10 == n / 10 by {
        if a == b {
          Decimal.DigitsInjective(m / 10, n / 10);
        }
      }
      hide CodeUnitLess;
      assert CodeUnitRank(c) < CodeUnitRank(d) <==> m % 10 < n % 10;
    } else {
      SingleDigit(m);
      SingleDigit(n);
      assert m < 10 && n < 10 ==> (CodeUnitLess([Decimal.DigitChar(m)], [Decimal.DigitChar(n)]) <==> m < n);
    }
  }

  lemma SingleDigit(n: nat)
    ensures if n < 10 then Decimal.Digits(n) == [Decimal.DigitChar(n)] else |Decimal.Digits(n)| > 1
  {
    if n >= 10 {
      Decimal.DigitsValue(n / 10);
    }
  }

  /** Array indices first, by number; then the other keys, in code unit order. */
  predicate OwnKeyLess(a: string, b: string) {
    if IsArrayIndex(a) then !IsArrayIndex(b) || NumericLess(a, b) else !IsArrayIndex(b) && CodeUnitLess(a, b)
  }

  /** The order of an object's own keys after its entries were inserted in code unit order. */
  function OwnKeyOrder(s: set<string>): (ks: seq<string>)
    ensures Distinct(ks) && Elements(ks) == s && SortedBy(ks, OwnKeyLess)
  {
    CodeUnitIsTotal();
    NumericIsTotal();
    var indices := set k | k in s && IsArrayIndex(k);
    var first, second := Ascending(indices, NumericLess), Ascending(s - indices, CodeUnitLess);
    OwnKeysSorted(first, second, s);
    first + second
  }

  lemma OwnKeysSorted(first: seq<string>, second: seq<string>, s: set<string>)
    requires SortedBy(first, NumericLess) && SortedBy(second, CodeUnitLess)
    requires Elements(first) == (set k | k in s && IsArrayIndex(k)) && Elements(second) == s - Elements(first)
    ensures Distinct(first + second) && Elements(first + second) == s && SortedBy(first + second, OwnKeyLess)
  {
    hide IsArrayIndex, NumericLess, CodeUnitLess;
    var ks := first + second;
    assert Elements(ks) == Elements(first) + Elements(second);
    forall i | 0 <= i < |ks|
      ensures IsArrayIndex(ks[i]) <==> i < |first|
    {
      assert i < |first| ==> first[i] in Elements(first);
      assert i >= |first| ==> second[i - |first|] in Elements(second);
    }
    CodeUnitIsTotal();
    NumericIsTotal();
    SortedIsDistinct(first, NumericLess);
    SortedIsDistinct(second, CodeUnitLess);
  }
}
