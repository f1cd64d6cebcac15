/** Base64 (section 4 of RFC 4648) as Buffer writes it and as the bundle check accepts it. */
module Base64 {
  import opened Bytes

  type sextet = x: int | 0 <= x < 64

  predicate IsSymbol(c: char) {
    'A' <= c <= 'Z' || 'a' <= c <= 'z' || '0' <= c <= '9' || c == '+' || c == '/'
  }

  function Symbol(n: sextet): (c: char)
    ensures IsSymbol(c) && Sextet(c) == n
  {
    if n < 26 then 'A' + n as char
    else if n < 52 then 'a' + (n - 26) as char
    else if n < 62 then '0' + (n - 52) as char
    else if n == 62 then '+'
    else '/'
  }

  /** The alphabet: the capitals, the small letters, the digits, plus and slash, one after the other. */
  lemma Alphabet()
    ensures Symbol(0) == 'A' && Symbol(25) == 'Z' && Symbol(26) == 'a' && Symbol(51) == 'z'
    ensures Symbol(52) == '0' && Symbol(61) == '9' && Symbol(62) == '+' && Symbol(63) == '/'
    ensures forall n: sextet :: n < 61 && n != 25 && n != 51 ==> Symbol(n + 1) as int == Symbol(n) as int + 1
  {
  }

  function Sextet(c: char): sextet
    requires IsSymbol(c)
  {
    if 'A' <= c <= 'Z' then (c - 'A') as int
    else if 'a' <= c <= 'z' then (c - 'a') as int + 26
    else if '0' <= c <= '9' then (c - '0') as int + 52
    else if c == '+' then 62
    else 63
  }

  /** The expression of the bundle check: quadruples, the last one possibly padded. */
  predicate IsBase64(s: string) {
    s == ""
    || (|s| >= 4 && IsSymbol(s[0]) && IsSymbol(s[1])
        && ((IsSymbol(s[2]) && IsSymbol(s[3]) && IsBase64(s[4..]))
            || (|s| == 4 && s[2] == '=' && s[3] == '=')
            || (|s| == 4 && IsSymbol(s[2]) && s[3] == '=')))
  }

  /** Buffer.from(s, "base64"): surplus bits of a padded quadruple are dropped. */
  function Decode(s: string): Bytes
    requires IsBase64(s)
  {
    if s == "" then []
    else
      var a, b := Sextet(s[0]), Sextet(s[1]);
      var first := 4 * a + b / 16;
      if s[2] == '=' then [first]
      else
        var c := Sextet(s[2]);
        var second := b % 16 * 16 + c / 4;
        if s[3] == '=' then [first, second]
        else [first, second, c % 4 * 64 + Sextet(s[3])] + Decode(s[4..])
  }

  /** Buffer.toString("base64"). */
  function Encode(b: Bytes): string {
    if b == [] then ""
    else if |b| == 1 then [Symbol(b[0] / 4), Symbol(b[0] % 4 * 16), '=', '=']
    else if |b| == 2 then [Symbol(b[0] / 4), Symbol(b[0] % 4 * 16 + b[1] / 16), Symbol(b[1] % 16 * 4), '=']
    else
      [Symbol(b[0] / 4), Symbol(b[0] % 4 * 16 + b[1] / 16), Symbol(b[1] % 16 * 4 + b[2] / 64), Symbol(b[2] % 64)]
      + Encode(b[3..])
  }

  /** The three bytes of a full quadruple, from the first and the last six bits of each. */
  lemma Triple(p: byte, q: byte, r: byte)
    ensures var a, b, c, d := p / 4, p % 4 * 16 + q / 16, q % 16 * 4 + r / 64, r % 64;
      4 * a + b / 16 == p && b % 16 * 16 + c / 4 == q && c % 4 * 64 + d == r
  {
  }

  lemma Short(p: byte, q: byte)
    ensures 4 * (p / 4) + p % 4 * 16 / 16 == p
    ensures var b, c := p % 4 * 16 + q / 16, q % 16 * 4; 4 * (p / 4) + b / 16 == p && b % 16 * 16 + c / 4 == q
  {
  }

  /** Encoding is undone by decoding, and always yields text that the check accepts. */
  lemma {:induction false} DecodeEncode(b: Bytes)
    ensures IsBase64(Encode(b)) && Decode(Encode(b)) == b
  {
    if |b| == 1 {
      DecodeOne(b);
    } else if |b| == 2 {
      DecodeTwo(b);
    } else if |b| >= 3 {
      DecodeEncode(b[3..]);
      DecodeMore(b);
    }
  }

  lemma DecodeOne(b: Bytes)
    requires |b| == 1
    ensures IsBase64(Encode(b)) && Decode(Encode(b)) == b
  {
    hide Sextet, Symbol;
    Short(b[0], 0);
    assert Encode(b) == [Symbol(b[0] / 4), Symbol(b[0] % 4 * 16), '=', '='];
  }

  lemma PaddedTwo(w: sextet, x: sextet, y: sextet)
    ensures var s := [Symbol(w), Symbol(x), Symbol(y), '='];
      IsBase64(s) && Decode(s) == [(4 * w + x / 16) as byte, (x % 16 * 16 + y / 4) as byte]
  {
    hide Sextet, Symbol;
    var s := [Symbol(w), Symbol(x), Symbol(y), '='];
    assert IsBase64(s) && s[2] != '=';
  }

  lemma EncodeTwo(b: Bytes)
    requires |b| == 2
    ensures Encode(b) == [Symbol(b[0] / 4), Symbol(b[0] % 4 * 16 + b[1] / 16), Symbol(b[1] % 16 * 4), '=']
  {
    hide Symbol;
  }

  lemma DecodeTwo(b: Bytes)
    requires |b| == 2
    ensures IsBase64(Encode(b)) && Decode(Encode(b)) == b
  {
    hide *;
    EncodeTwo(b);
    PaddedTwo(b[0] / 4, b[0] % 4 * 16 + b[1] / 16, b[1] % 16 * 4);
    Short(b[0], b[1]);
    assert b == [b[0], b[1]];
  }

  lemma DecodeMore(b: Bytes)
    requires |b| >= 3 && IsBase64(Encode(b[3..])) && Decode(Encode(b[3..])) == b[3..]
    ensures IsBase64(Encode(b)) && Decode(Encode(b)) == b
  {
    hide Sextet, Symbol, Decode, IsBase64, Encode;
    EncodeMore(b);
    FullQuad(b[0] / 4, b[0] % 4 * 16 + b[1] / 16, b[1] % 16 * 4 + b[2] / 64, b[2] % 64, Encode(b[3..]));
    ThreeBytes(b);
  }

  lemma EncodeMore(b: Bytes)
    requires |b| >= 3
    ensures Encode(b) == [Symbol(b[0] / 4), Symbol(b[0] % 4 * 16 + b[1] / 16), Symbol(b[1] % 16 * 4 + b[2] / 64),
                          Symbol(b[2] % 64)]
                         + Encode(b[3..])
  {
    hide Symbol;
  }

  lemma ThreeBytes(b: Bytes)
    requires |b| >= 3
    ensures var w, x, y, z := b[0] / 4, b[0] % 4 * 16 + b[1] / 16, b[1] % 16 * 4 + b[2] / 64, b[2] % 64;
      [4 * w + x / 16, x % 16 * 16 + y / 4, y % 4 * 64 + z] + b[3..] == b
  {
    Triple(b[0], b[1], b[2]);
    assert b == [b[0], b[1], b[2]] + b[3..];
  }

  lemma FullQuad(w: sextet, x: sextet, y: sextet, z: sextet, rest: string)
    requires IsBase64(rest)
    ensures var s := [Symbol(w), Symbol(x), Symbol(y), Symbol(z)] + rest;
      && IsBase64(s)
      && Decode(s) == [4 * w + x / 16, x % 16 * 16 + y / 4, y % 4 * 64 + z] + Decode(rest)
  {
    hide Sextet, Symbol;
    var s := [Symbol(w), Symbol(x), Symbol(y), Symbol(z)] + rest;
    assert s[4..] == rest && s[0] == Symbol(w) && s[1] == Symbol(x) && s[2] == Symbol(y) && s[3] == Symbol(z);
    assert s[2] != '=' && s[3] != '=';
  }
}
