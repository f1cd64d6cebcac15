/** JSON values and their canonical text: what JSON.stringify prints once object keys are ordered. */
module Json {
  import opened Ordering
  import opened Strings
  import Decimal

  /** A JSON value; an object's members have no order, numbers are integers. */
  datatype Value =
    | Null
    | Bool(b: bool)
    | Num(n: int)
    | Str(s: string)
    | Arr(items: seq<Value>)
    | Obj(members: map<string, Value>)

  predicate IsPrimitive(v: Value) {
    !v.Arr? && !v.Obj?
  }

  /** How the keys of an object are laid out. */
  type KeyOrder = set<string> -> seq<string>

  ghost predicate Enumerates(order: KeyOrder) {
    forall s: set<string> :: Distinct(order(s)) && Elements(order(s)) == s
  }

  // ---- Concatenation --------------------------------------------------------------------

  lemma Regroup(sep: string, key: string, colon: string, text: string, rest: string, x: string)
    ensures sep + key + colon + text + rest + x == sep + (key + (colon + (text + (rest + x))))
  {
  }

  // ---- Strings --------------------------------------------------------------------------

  function HexDigit(d: nat): char
    requires d < 16
  {
    if d < 10 then '0' + d as char else 'a' + (d - 10) as char
  }

  /** One character inside a JSON string literal. */
  function EscapeChar(c: char): (e: string)
    ensures e != "" && e[0] != '\"'
  {
    if c == '\"' then "\\\""
    else if c == '\\' then "\\\\"
    else if c == 8 as char then "\\b"
    else if c == 12 as char then "\\f"
    else if c == '\n' then "\\n"
    else if c == '\r' then "\\r"
    else if c == '\t' then "\\t"
    else if (c as int) < 32 then "\\u00" + [HexDigit(c as int / 16), HexDigit(c as int % 16)]
    else [c]
  }

  function EscapeAll(s: string): string {
    if s == "" then "" else EscapeChar(s[0]) + EscapeAll(s[1..])
  }

  function Quote(s: string): string {
    "\"" + EscapeAll(s) + "\""
  }

  lemma EscapeCharPrefix(c: char, d: char, x: string, y: string)
    requires EscapeChar(c) + x == EscapeChar(d) + y
    ensures c == d && x == y
  {
    var e, f := EscapeChar(c), EscapeChar(d);
    var whole := e + x;
    assert whole[0] == e[0] && whole[0] == f[0];
    if e[0] == '\\' {
      assert whole[1] == e[1] && whole[1] == f[1];
      if e[1] == 'u' {
        assert whole[4] == e[4] && whole[4] == f[4];
        assert whole[5] == e[5] && whole[5] == f[5];
        assert c as int / 16 == d as int / 16 && c as int % 16 == d as int % 16;
      }
    }
    assert c == d;
    assert whole[|e|..] == x && whole[|f|..] == y;
  }

  lemma EscapeStart(s: string, x: string)
    requires s != ""
    ensures var rest := EscapeAll(s[1..]) + "\"" + x;
      EscapeAll(s) + "\"" + x == EscapeChar(s[0]) + rest
    ensures (EscapeAll(s) + "\"" + x)[0] != '\"'
  {
    var e, r := EscapeChar(s[0]), EscapeAll(s[1..]);
    Assoc(e, r, "\"");
    Assoc(e, r + "\"", x);
  }

  lemma EmptyEscape(x: string)
    ensures EscapeAll("") + "\"" + x == "\"" + x
  {
  }

  lemma {:induction false} EscapePrefix(s: string, t: string, x: string, y: string)
    requires EscapeAll(s) + "\"" + x == EscapeAll(t) + "\"" + y
    ensures s == t && x == y
    decreases |s| + |t|
  {
    if s == "" {
      EmptyEscape(x);
      if t != "" {
        EscapeStart(t, y);
      }
      assert ("\"" + x)[1..] == x && ("\"" + y)[1..] == y;
    } else if t == "" {
      EmptyEscape(y);
      EscapeStart(s, x);
    } else {
      EscapeStart(s, x);
      EscapeStart(t, y);
      EscapeCharPrefix(s[0], t[0], EscapeAll(s[1..]) + "\"" + x, EscapeAll(t[1..]) + "\"" + y);
      EscapePrefix(s[1..], t[1..], x, y);
      assert s == [s[0]] + s[1..] && t == [t[0]] + t[1..];
    }
  }

  lemma QuotePrefix(s: string, t: string, x: string, y: string)
    requires Quote(s) + x == Quote(t) + y
    ensures s == t && x == y
  {
    assert (Quote(s) + x)[1..] == EscapeAll(s) + "\"" + x;
    assert (Quote(t) + y)[1..] == EscapeAll(t) + "\"" + y;
    EscapePrefix(s, t, x, y);
  }

  // ---- Numbers --------------------------------------------------------------------------

  function NumberText(n: int): string {
    if n < 0 then "-" + Decimal.Digits(-n) else Decimal.Digits(n)
  }

  lemma NumberStart(n: int)
    ensures NumberText(n) != "" && (NumberText(n)[0] == '-' <==> n < 0)
    ensures n >= 0 ==> Decimal.IsDigit(NumberText(n)[0])
  {
    if n >= 0 {
      Decimal.DigitsValue(n);
    }
  }

  lemma SameSign(m: int, n: int, x: string, y: string)
    requires NumberText(m) + x == NumberText(n) + y
    ensures m < 0 <==> n < 0
  {
    NumberStart(m);
    NumberStart(n);
    assert (NumberText(m) + x)[0] == NumberText(m)[0];
    assert (NumberText(n) + y)[0] == NumberText(n)[0];
  }

  lemma NumberPrefix(m: int, n: int, x: string, y: string)
    requires NumberText(m) + x == NumberText(n) + y
    requires Decimal.NoDigitAhead(x) && Decimal.NoDigitAhead(y)
    ensures m == n && x == y
  {
    SameSign(m, n, x, y);
    if m < 0 {
      var p, q := Decimal.Digits(-m), Decimal.Digits(-n);
      Assoc("-", p, x);
      Assoc("-", q, y);
      CancelHead("-", p + x, q + y);
      Decimal.DigitsPrefix(-m, -n, x, y);
    } else {
      Decimal.DigitsPrefix(m, n, x, y);
    }
  }

  // ---- Values ---------------------------------------------------------------------------

  /** The text of `v`, with each object's keys laid out by `order`. */
  function Text(v: Value, order: KeyOrder): string
    decreases v
  {
    match v
    case Null => "null"
    case Bool(b) => if b then "true" else "false"
    case Num(n) => NumberText(n)
    case Str(s) => Quote(s)
    case Arr(items) => "[" + ItemsText(items, order, true)
    case Obj(members) => "{" + MembersText(members, KeysOf(members, order), order, v, true)
  }

  /** The keys of an object in the given order (a filter, so that any `order` may be used). */
  function KeysOf(members: map<string, Value>, order: KeyOrder): (ks: seq<string>)
    ensures forall k :: k in ks ==> k in members
  {
    Present(order(members.Keys), members)
  }

  function Present(ks: seq<string>, members: map<string, Value>): (r: seq<string>)
    ensures forall k :: k in r ==> k in members
    ensures (forall k :: k in ks ==> k in members) ==> r == ks
  {
    if ks == [] then []
    else
      assert ks[0] in ks;
      (if ks[0] in members then [ks[0]] else []) + Present(ks[1..], members)
  }

  /** The remaining items and the closing bracket. */
  function ItemsText(items: seq<Value>, order: KeyOrder, first: bool): string
    decreases items
  {
    if items == [] then "]"
    else (if first then "" else ",") + Text(items[0], order) + ItemsText(items[1..], order, false)
  }

  /** The remaining members and the closing brace; `owner` is the object they belong to. */
  function MembersText(members: map<string, Value>, ks: seq<string>, order: KeyOrder,
                       ghost owner: Value, first: bool): string
    requires owner == Obj(members) && forall k :: k in ks ==> k in members
    decreases owner, |ks|
  {
    if ks == [] then "}"
    else
      (if first then "" else ",") + Quote(ks[0]) + ":" + Text(members[ks[0]], order)
      + MembersText(members, ks[1..], order, owner, false)
  }

  /** The first character tells the kind of value. */
  lemma TextStart(v: Value, order: KeyOrder)
    ensures Text(v, order) != ""
    ensures var c := Text(v, order)[0];
      && (v.Null? <==> c == 'n')
      && (v.Bool? <==> c == 't' || c == 'f')
      && (v.Num? <==> c == '-' || Decimal.IsDigit(c))
      && (v.Str? <==> c == '\"')
      && (v.Arr? <==> c == '[')
      && (v.Obj? <==> c == '{')
  {
    if v.Num? {
      NumberStart(v.n);
    }
  }

  lemma SameKind(v: Value, w: Value, order: KeyOrder, x: string, y: string)
    requires Text(v, order) + x == Text(w, order) + y
    ensures (v.Null? <==> w.Null?) && (v.Bool? <==> w.Bool?) && (v.Num? <==> w.Num?)
    ensures (v.Str? <==> w.Str?) && (v.Arr? <==> w.Arr?) && (v.Obj? <==> w.Obj?)
    ensures v.Bool? ==> v.b == w.b
  {
    TextStart(v, order);
    TextStart(w, order);
    assert (Text(v, order) + x)[0] == Text(v, order)[0];
    assert (Text(w, order) + y)[0] == Text(w, order)[0];
  }

  /** A value is determined by any text that starts with it, so long as no digit follows. */
  lemma {:induction false} TextPrefix(v: Value, w: Value, order: KeyOrder, x: string, y: string)
    requires Enumerates(order)
    requires Text(v, order) + x == Text(w, order) + y
    requires Decimal.NoDigitAhead(x) && Decimal.NoDigitAhead(y)
    ensures v == w && x == y
    decreases v, 2
  {
    SameKind(v, w, order, x, y);
    match v
    case Null => CancelHead("null", x, y);
    case Bool(p) => CancelHead(Text(v, order), x, y);
    case Num(n) => NumberPrefix(n, w.n, x, y);
    case Str(s) => QuotePrefix(s, w.s, x, y);
    case Arr(items) =>
      var i, j := ItemsText(items, order, true), ItemsText(w.items, order, true);
      Assoc("[", i, x);
      Assoc("[", j, y);
      CancelHead("[", i + x, j + y);
      ItemsPrefix(items, w.items, order, true, x, y);
    case Obj(_) => ObjectPrefix(v, w, order, x, y);
  }

  lemma {:induction false} ObjectPrefix(v: Value, w: Value, order: KeyOrder, x: string, y: string)
    requires Enumerates(order) && v.Obj? && w.Obj?
    requires Text(v, order) + x == Text(w, order) + y
    ensures v == w && x == y
    decreases v, 1
  {
    var kv, kw := KeysOf(v.members, order), KeysOf(w.members, order);
    KeysOfEnumerates(v.members, order);
    KeysOfEnumerates(w.members, order);
    var i, j := MembersText(v.members, kv, order, v, true), MembersText(w.members, kw, order, w, true);
    Assoc("{", i, x);
    Assoc("{", j, y);
    CancelHead("{", i + x, j + y);
    MembersPrefix(v, kv, w, kw, order, true, x, y);
    assert v.members.Keys == w.members.Keys;
    assert forall k | k in v.members :: k in Elements(kv);
  }

  lemma KeysOfEnumerates(members: map<string, Value>, order: KeyOrder)
    requires Enumerates(order)
    ensures KeysOf(members, order) == order(members.Keys)
    ensures Distinct(KeysOf(members, order)) && Elements(KeysOf(members, order)) == members.Keys
  {
    var ks := order(members.Keys);
    assert Elements(ks) == members.Keys;
    assert forall k | k in ks :: k in Elements(ks);
  }

  lemma ItemsStart(vs: seq<Value>, order: KeyOrder, first: bool, x: string)
    requires vs != []
    ensures ItemsText(vs, order, first) + x
         == (if first then "" else ",") + (Text(vs[0], order) + (ItemsText(vs[1..], order, false) + x))
    ensures (ItemsText(vs, order, first) + x)[0] != ']'
  {
    var sep, t, r := if first then "" else ",", Text(vs[0], order), ItemsText(vs[1..], order, false);
    TextStart(vs[0], order);
    Assoc(sep + t, r, x);
    Assoc(sep, t, r + x);
  }

  lemma {:induction false} ItemsPrefix(vs: seq<Value>, ws: seq<Value>, order: KeyOrder, first: bool,
                                       x: string, y: string)
    requires Enumerates(order)
    requires ItemsText(vs, order, first) + x == ItemsText(ws, order, first) + y
    ensures vs == ws && x == y
    decreases vs
  {
    if vs != [] {
      ItemsStart(vs, order, first, x);
    }
    if ws != [] {
      ItemsStart(ws, order, first, y);
    }
    assert ("]" + x)[0] == ']' && ("]" + y)[0] == ']';
    assert vs == [] <==> ws == [];
    if vs == [] {
      CancelHead("]", x, y);
    } else {
      var restV, restW := ItemsText(vs[1..], order, false) + x, ItemsText(ws[1..], order, false) + y;
      CancelHead(if first then "" else ",", Text(vs[0], order) + restV, Text(ws[0], order) + restW);
      TextPrefix(vs[0], ws[0], order, restV, restW);
      ItemsPrefix(vs[1..], ws[1..], order, false, x, y);
      assert vs == [vs[0]] + vs[1..] && ws == [ws[0]] + ws[1..];
    }
  }

  /** What follows the key of the first remaining member. */
  function AfterKey(v: Value, ks: seq<string>, order: KeyOrder, x: string): string
    requires v.Obj? && ks != [] && forall k :: k in ks ==> k in v.members
  {
    ":" + (Text(v.members[ks[0]], order) + (MembersText(v.members, ks[1..], order, v, false) + x))
  }

  lemma MembersStart(v: Value, ks: seq<string>, order: KeyOrder, first: bool, x: string)
    requires v.Obj? && ks != [] && forall k :: k in ks ==> k in v.members
    ensures MembersText(v.members, ks, order, v, first) + x
         == (if first then "" else ",") + (Quote(ks[0]) + AfterKey(v, ks, order, x))
    ensures (MembersText(v.members, ks, order, v, first) + x)[0] != '}'
  {
    Regroup(if first then "" else ",", Quote(ks[0]), ":", Text(v.members[ks[0]], order),
            MembersText(v.members, ks[1..], order, v, false), x);
  }

  lemma {:induction false} MembersPrefix(v: Value, kv: seq<string>, w: Value, kw: seq<string>,
                                         order: KeyOrder, first: bool, x: string, y: string)
    requires Enumerates(order) && v.Obj? && w.Obj?
    requires (forall k :: k in kv ==> k in v.members) && (forall k :: k in kw ==> k in w.members)
    requires MembersText(v.members, kv, order, v, first) + x == MembersText(w.members, kw, order, w, first) + y
    ensures kv == kw && x == y
    ensures forall k :: k in kv ==> v.members[k] == w.members[k]
    decreases v, 0, |kv|
  {
    if kv != [] {
      MembersStart(v, kv, order, first, x);
    }
    if kw != [] {
      MembersStart(w, kw, order, first, y);
    }
    assert ("}" + x)[0] == '}' && ("}" + y)[0] == '}';
    assert kv == [] <==> kw == [];
    if kv == [] {
      CancelHead("}", x, y);
    } else {
      var i, j := kv[0], kw[0];
      CancelHead(if first then "" else ",", Quote(i) + AfterKey(v, kv, order, x), Quote(j) + AfterKey(w, kw, order, y));
      QuotePrefix(i, j, AfterKey(v, kv, order, x), AfterKey(w, kw, order, y));
      var restV := MembersText(v.members, kv[1..], order, v, false) + x;
      var restW := MembersText(w.members, kw[1..], order, w, false) + y;
      CancelHead(":", Text(v.members[i], order) + restV, Text(w.members[j], order) + restW);
      TextPrefix(v.members[i], w.members[j], order, restV, restW);
      MembersPrefix(v, kv[1..], w, kw[1..], order, false, x, y);
      assert kv == [i] + kv[1..] && kw == [j] + kw[1..];
    }
  }

  /** Equal canonical texts mean equal values, for every key order. */
  lemma TextInjective(v: Value, w: Value, order: KeyOrder)
    requires Enumerates(order)
    ensures Text(v, order) == Text(w, order) <==> v == w
  {
    if Text(v, order) == Text(w, order) {
      TextPrefix(v, w, order, "", "");
    }
  }
}
