/** JSON pointers (sections 3 and 4 of RFC 6901) as the configuration tools print them. */
module Pointers {
  import opened Strings

  /** The keys and indices leading to a part of a value. */
  type Path = seq<string>

  function EscapeSegmentChar(c: char): (e: string)
    ensures e != "" && e[0] != '/'
  {
    if c == '~' then "~0" else if c == '/' then "~1" else [c]
  }

  function EscapeSegment(k: string): string {
    if k == "" then "" else EscapeSegmentChar(k[0]) + EscapeSegment(k[1..])
  }

  function Pointer(p: Path): string {
    if p == [] then "" else "/" + EscapeSegment(p[0]) + Pointer(p[1..])
  }

  predicate SegmentEnd(rest: string) {
    rest == "" || rest[0] == '/'
  }

  lemma SegmentCharPrefix(c: char, d: char, x: string, y: string)
    requires EscapeSegmentChar(c) + x == EscapeSegmentChar(d) + y
    ensures c == d && x == y
  {
    var e, f := EscapeSegmentChar(c), EscapeSegmentChar(d);
    assert (e + x)[0] == e[0] && (f + y)[0] == f[0];
    if c == '~' || c == '/' {
      assert (e + x)[1] == e[1] && (f + y)[1] == f[1];
    }
    CancelHead(e, x, y);
  }

  lemma SegmentStart(k: string, x: string)
    requires k != ""
    ensures EscapeSegment(k) + x == EscapeSegmentChar(k[0]) + (EscapeSegment(k[1..]) + x)
    ensures !SegmentEnd(EscapeSegment(k) + x)
  {
    Assoc(EscapeSegmentChar(k[0]), EscapeSegment(k[1..]), x);
  }

  lemma {:induction false} SegmentPrefix(k: string, l: string, x: string, y: string)
    requires EscapeSegment(k) + x == EscapeSegment(l) + y
    requires SegmentEnd(x) && SegmentEnd(y)
    ensures k == l && x == y
    decreases |k| + |l|
  {
    if k != "" {
      SegmentStart(k, x);
    }
    if l != "" {
      SegmentStart(l, y);
    }
    assert EscapeSegment("") + x == x && EscapeSegment("") + y == y;
    if k != "" && l != "" {
      SegmentCharPrefix(k[0], l[0], EscapeSegment(k[1..]) + x, EscapeSegment(l[1..]) + y);
      SegmentPrefix(k[1..], l[1..], x, y);
      assert k == [k[0]] + k[1..] && l == [l[0]] + l[1..];
    }
  }

  lemma PointerStart(p: Path)
    requires p != []
    ensures Pointer(p) == "/" + (EscapeSegment(p[0]) + Pointer(p[1..]))
  {
    Assoc("/", EscapeSegment(p[0]), Pointer(p[1..]));
  }

  /** A pointer determines its path. */
  lemma {:induction false} PointerInjective(p: Path, q: Path)
    requires Pointer(p) == Pointer(q)
    ensures p == q
    decreases |p|
  {
    if p != [] && q != [] {
      PointerStart(p);
      PointerStart(q);
      var x, y := Pointer(p[1..]), Pointer(q[1..]);
      CancelHead("/", EscapeSegment(p[0]) + x, EscapeSegment(q[0]) + y);
      SegmentPrefix(p[0], q[0], x, y);
      PointerInjective(p[1..], q[1..]);
      assert p == [p[0]] + p[1..] && q == [q[0]] + q[1..];
    }
  }

  lemma {:induction false} PointerChild(at: Path, k: string)
    ensures Pointer(at + [k]) == Pointer(at) + "/" + EscapeSegment(k)
    decreases |at|
  {
    if at == [] {
      assert [] + [k] == [k];
      assert Pointer([k]) == "/" + EscapeSegment(k) + Pointer([]);
    } else {
      PointerChild(at[1..], k);
      assert (at + [k])[0] == at[0] && (at + [k])[1..] == at[1..] + [k];
      Assoc("/" + EscapeSegment(at[0]), Pointer(at[1..]), "/" + EscapeSegment(k));
      Assoc(Pointer(at[1..]), "/", EscapeSegment(k));
      Assoc(Pointer(at), "/", EscapeSegment(k));
    }
  }

  // ---- Reading a pointer ----------------------------------------------------------------

  /** `s.replaceAll(a + b, c)` for two different characters. */
  function ReplacePair(s: string, a: char, b: char, c: char): string {
    if s == "" then ""
    else if |s| > 1 && s[0] == a && s[1] == b then [c] + ReplacePair(s[2..], a, b, c)
    else [s[0]] + ReplacePair(s[1..], a, b, c)
  }

  /** As the standard has it: first "~1" becomes a slash, then "~0" a tilde. */
  function Unescape(segment: string): string {
    ReplacePair(ReplacePair(segment, '~', '1', '/'), '~', '0', '~')
  }

  /** The segments that a pointer names: none, or what stands between its slashes. */
  function Read(pointer: string): Path {
    if pointer == "" then []
    else
      var parts := Split(pointer[1..], '/');
      seq(|parts|, i requires 0 <= i < |parts| => Unescape(parts[i]))
  }

  function TildesEscaped(k: string): string {
    if k == "" then "" else (if k[0] == '~' then "~0" else [k[0]]) + TildesEscaped(k[1..])
  }

  lemma {:induction false} SlashesBack(k: string)
    ensures ReplacePair(EscapeSegment(k), '~', '1', '/') == TildesEscaped(k)
  {
    if k != "" {
      var rest := EscapeSegment(k[1..]);
      SlashesBack(k[1..]);
      if k[0] == '~' {
        assert ("~0" + rest)[1..] == "0" + rest && ("0" + rest)[1..] == rest;
      } else if k[0] == '/' {
        assert ("~1" + rest)[2..] == rest;
      } else {
        assert ([k[0]] + rest)[1..] == rest;
      }
    }
  }

  lemma {:induction false} TildesBack(k: string)
    ensures ReplacePair(TildesEscaped(k), '~', '0', '~') == k
  {
    if k != "" {
      var rest := TildesEscaped(k[1..]);
      TildesBack(k[1..]);
      if k[0] == '~' {
        assert ("~0" + rest)[2..] == rest;
      } else {
        assert ([k[0]] + rest)[1..] == rest;
      }
      assert k == [k[0]] + k[1..];
    }
  }

  lemma {:induction false} NoSlash(k: string)
    ensures '/' !in EscapeSegment(k)
  {
    if k != "" {
      NoSlash(k[1..]);
    }
  }

  function Escaped(p: Path): seq<string> {
    seq(|p|, i requires 0 <= i < |p| => EscapeSegment(p[i]))
  }

  lemma {:induction false} PointerJoins(p: Path)
    requires p != []
    ensures Pointer(p) == "/" + Join(Escaped(p), '/')
  {
    if |p| > 1 {
      PointerJoins(p[1..]);
      assert Escaped(p)[1..] == Escaped(p[1..]);
    } else {
      assert Pointer(p[1..]) == "";
    }
  }

  /** Reading a printed pointer as the standard has it gives the path. */
  lemma PointerReads(p: Path)
    ensures Read(Pointer(p)) == p
  {
    if p != [] {
      PointerJoins(p);
      assert Pointer(p)[1..] == Join(Escaped(p), '/');
      forall i | 0 <= i < |p|
        ensures '/' !in Escaped(p)[i] && Unescape(Escaped(p)[i]) == p[i]
      {
        NoSlash(p[i]);
        SlashesBack(p[i]);
        TildesBack(p[i]);
      }
      JoinSplit(Escaped(p), '/');
    }
  }
}
