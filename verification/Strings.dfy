/** String operations and facts about concatenation. */
module Strings {

  /** `s.split(separator)` for a one-character separator. */
  function Split(s: string, separator: char): (parts: seq<string>)
    ensures |parts| > 0
  {
    if s == "" then [""]
    else
      var rest := Split(s[1..], separator);
      if s[0] == separator then [""] + rest else [[s[0]] + rest[0]] + rest[1..]
  }

  lemma CancelHead(h: string, a: string, b: string)
    requires h + a == h + b
    ensures a == b
  {
    assert (h + a)[|h|..] == a && (h + b)[|h|..] == b;
  }

  lemma Assoc(a: string, b: string, c: string)
    ensures (a + b) + c == a + (b + c)
  {
  }

  // ---- What splitting means -------------------------------------------------------------

  /** `parts.join(separator)` for a one-character separator. */
  function Join(parts: seq<string>, separator: char): string {
    if |parts| == 0 then ""
    else if |parts| == 1 then parts[0]
    else parts[0] + [separator] + Join(parts[1..], separator)
  }

  /** None of the parts has the character in it. */
  predicate Without(parts: seq<string>, c: char) {
    forall i :: 0 <= i < |parts| ==> c !in parts[i]
  }

  /** The first part ends at the first separator, and the rest is split likewise. */
  lemma {:induction false} FirstPart(s: string, separator: char) returns (n: nat)
    ensures n <= |s| && separator !in s[..n]
    ensures n == |s| ==> Split(s, separator) == [s]
    ensures n < |s| ==> s[n] == separator && Split(s, separator) == [s[..n]] + Split(s[n + 1..], separator)
  {
    if s == "" || s[0] == separator {
      n := 0;
    } else {
      var m := FirstPart(s[1..], separator);
      n := m + 1;
      assert s[..n] == [s[0]] + s[1..][..m];
      assert s == [s[0]] + s[1..];
      if n < |s| {
        assert s[n + 1..] == s[1..][m + 1..];
      }
    }
  }

  lemma SeparatorWithin(s: string, separator: char, m: nat, n: nat)
    ensures m < n <= |s| && s[m] == separator ==> separator in s[..n]
  {
    if m < n <= |s| && s[m] == separator {
      assert s[..n][m] == separator;
    }
  }

  /** Splitting takes a text apart at every separator. */
  lemma {:induction false} SplitJoin(s: string, separator: char)
    ensures Join(Split(s, separator), separator) == s && Without(Split(s, separator), separator)
    decreases |s|
  {
    var n := FirstPart(s, separator);
    if n < |s| {
      SplitJoin(s[n + 1..], separator);
      assert s == s[..n] + [separator] + s[n + 1..];
    }
  }

  /** Parts without separator are what their joined text is split into. */
  lemma {:induction false} JoinSplit(parts: seq<string>, separator: char)
    requires parts != [] && Without(parts, separator)
    ensures Split(Join(parts, separator), separator) == parts
  {
    var s := Join(parts, separator);
    var n := FirstPart(s, separator);
    if |parts| == 1 {
      assert parts[0] == s && s[n..] == s[n..];
      assert n == |s|;
    } else {
      JoinSplit(parts[1..], separator);
      var m := |parts[0]|;
      assert s[..m] == parts[0] && s[m] == separator && s[m + 1..] == Join(parts[1..], separator);
      SeparatorWithin(s, separator, m, n);
      SeparatorWithin(s, separator, n, m);
    }
  }

  /** From `i` to `j` without interruption: each of them is an end of the text or beside a separator. */
  predicate Between(s: string, separator: char, i: nat, j: nat) {
    && i <= j <= |s|
    && (i == 0 || s[i - 1] == separator)
    && (j == |s| || s[j] == separator)
  }

  lemma BetweenAfter(s: string, separator: char, n: nat, i: nat, j: nat)
    requires n < |s| && s[n] == separator && i <= j && n + 1 + j <= |s|
    ensures Between(s[n + 1..], separator, i, j) == Between(s, separator, n + 1 + i, n + 1 + j)
    ensures s[n + 1..][i..j] == s[n + 1 + i..n + 1 + j]
  {
  }

  /** The parts of a text are its stretches between separators that hold no separator. */
  lemma {:induction false} PartIsBetween(s: string, separator: char, part: string) returns (i: nat, j: nat)
    requires part in Split(s, separator)
    ensures Between(s, separator, i, j) && s[i..j] == part
    decreases |s|
  {
    var n := FirstPart(s, separator);
    hide Split;
    if n == |s| || part == s[..n] {
      i, j := 0, n;
    } else {
      i, j := PartIsBetween(s[n + 1..], separator, part);
      BetweenAfter(s, separator, n, i, j);
      i, j := n + 1 + i, n + 1 + j;
    }
  }

  lemma {:induction false} BetweenIsPart(s: string, separator: char, i: nat, j: nat)
    requires Between(s, separator, i, j) && separator !in s[i..j]
    ensures s[i..j] in Split(s, separator)
    decreases |s|
  {
    var n := FirstPart(s, separator);
    hide Split;
    if i == 0 {
      assert s[0..j] == s[..j] && s[..|s|] == s;
      SeparatorWithin(s, separator, j, n);
      SeparatorWithin(s, separator, n, j);
    } else {
      SeparatorWithin(s, separator, i - 1, n);
      BetweenAfter(s, separator, n, i - n - 1, j - n - 1);
      BetweenIsPart(s[n + 1..], separator, i - n - 1, j - n - 1);
    }
  }
}
