/** Decimal numerals as JavaScript prints them: no leading zeros, no sign for naturals. */
module Decimal {

  predicate IsDigit(c: char) {
    '0' <= c <= '9'
  }

  function DigitChar(d: nat): (c: char)
    requires d < 10
    ensures IsDigit(c)
  {
    '0' + d as char
  }

  function DigitValue(c: char): (d: nat)
    requires IsDigit(c)
    ensures d < 10
  {
    (c - '0') as nat
  }

  predicate AllDigits(s: string) {
    forall i :: 0 <= i < |s| ==> IsDigit(s[i])
  }

  /** A string the printer can produce: digits only, no superfluous leading zero. */
  predicate Canonical(s: string) {
    s != "" && AllDigits(s) && (s[0] == '0' ==> |s| == 1)
  }

  function Digits(n: nat): string {
    if n < 10 then [DigitChar(n)] else Digits(n / 10) + [DigitChar(n % 10)]
  }

  /** The number a digit string denotes. */
  function Value(s: string): nat
    requires AllDigits(s)
  {
    if s == "" then 0 else 10 * Value(s[..|s| - 1]) + DigitValue(s[|s| - 1])
  }

  lemma {:induction false} DigitsValue(n: nat)
    ensures Canonical(Digits(n)) && Value(Digits(n)) == n
    ensures n > 0 ==> Digits(n)[0] != '0'
  {
    var s := Digits(n);
    if n < 10 {
      assert s[..0] == "";
      assert Value(s) == 10 * Value(s[..0]) + DigitValue(s[0]);
    } else {
      DigitsValue(n / 10);
      assert s[..|s| - 1] == Digits(n / 10);
    }
  }

  lemma {:induction false} ValueDigits(s: string)
    requires Canonical(s)
    ensures Digits(Value(s)) == s
    ensures |s| > 1 ==> Value(s) > 0
    decreases |s|
  {
    var init := s[..|s| - 1];
    if |s| == 1 {
      assert Value(s) == DigitValue(s[0]);
    } else {
      ValueDigits(init);
      if |init| == 1 {
        assert init[0] != '0';
        assert Value(init) == 10 * Value(init[..0]) + DigitValue(init[0]);
      }
      assert Value(s) / 10 == Value(init) && Value(s) % 10 == DigitValue(s[|s| - 1]);
      assert s == init + [s[|s| - 1]];
    }
  }

  lemma DigitsInjective(a: nat, b: nat)
    requires Digits(a) == Digits(b)
    ensures a == b
  {
    DigitsValue(a);
    DigitsValue(b);
  }

  /** What may follow a numeral for the numeral to end there. */
  predicate NoDigitAhead(rest: string) {
    rest == "" || !IsDigit(rest[0])
  }

  /** A numeral is determined by any text it starts, so long as no digit follows it. */
  lemma DigitsPrefix(a: nat, b: nat, x: string, y: string)
    requires Digits(a) + x == Digits(b) + y
    requires NoDigitAhead(x) && NoDigitAhead(y)
    ensures a == b && x == y
  {
    DigitsValue(a);
    DigitsValue(b);
    var whole := Digits(a) + x;
    var m, n := |Digits(a)|, |Digits(b)|;
    assert forall i :: 0 <= i < m ==> IsDigit(whole[i]);
    assert forall i :: 0 <= i < n ==> IsDigit(whole[i]) by {
      assert whole == Digits(b) + y;
    }
    assert m < |whole| ==> whole[m] == x[0];
    assert n < |whole| ==> whole[n] == y[0];
    assert m == n;
    assert whole[..m] == Digits(a) && whole[..n] == Digits(b);
    assert whole[m..] == x && whole[n..] == y;
    DigitsInjective(a, b);
  }
}
