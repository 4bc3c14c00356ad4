/** Decimal numerals. */
module Decimals {

  predicate Digits(s: string) {
    s != [] && forall i :: 0 <= i < |s| ==> '0' <= s[i] <= '9'
  }

  function ParseDecimal(s: string): (n: int)
    requires forall i :: 0 <= i < |s| ==> '0' <= s[i] <= '9'
    ensures n >= 0
  {
    if s == [] then 0
    else ParseDecimal(s[..|s| - 1]) * 10 + (s[|s| - 1] as int - '0' as int)
  }

  function Decimal(n: nat): (s: string)
    ensures Digits(s)
  {
    (if n < 10 then [] else Decimal(n / 10)) + [('0' as int + n % 10) as char]
  }

  lemma {:induction false} ParseOfDecimal(n: nat)
    ensures ParseDecimal(Decimal(n)) == n
  {
    var s := Decimal(n);
    if n >= 10 {
      ParseOfDecimal(n / 10);
      assert s[..|s| - 1] == Decimal(n / 10);
    } else {
      assert s == [('0' as int + n) as char];
      assert s[..|s| - 1] == [] && ParseDecimal(s[..|s| - 1]) == 0;
    }
  }

  function Zeros(k: nat): (s: string)
    ensures |s| == k && forall i :: 0 <= i < k ==> s[i] == '0'
  {
    seq(k, _ => '0')
  }

  lemma {:induction false} ZerosParse(k: nat)
    ensures ParseDecimal(Zeros(k)) == 0
  {
    if k == 0 {
    } else {
      ZerosParse(k - 1);
      assert Zeros(k)[..k - 1] == Zeros(k - 1);
    }
  }

  /** Leading zeros do not count. */
  lemma {:induction false} ParseAfterZeros(k: nat, s: string)
    requires Digits(s)
    ensures Digits(Zeros(k) + s) && ParseDecimal(Zeros(k) + s) == ParseDecimal(s)
    decreases |s|
  {
    var all := Zeros(k) + s;
    assert all[..|all| - 1] == Zeros(k) + s[..|s| - 1];
    if |s| == 1 {
      ZerosParse(k);
      assert all[..|all| - 1] == Zeros(k) && s[..0] == [];
    } else {
      ParseAfterZeros(k, s[..|s| - 1]);
    }
  }

  /** Digits are the decimal form of the number they stand for, after some zeros. */
  lemma {:induction false} DigitsAreDecimal(s: string) returns (k: nat)
    requires Digits(s)
    ensures s == Zeros(k) + Decimal(ParseDecimal(s))
    decreases |s|
  {
    var last := s[|s| - 1];
    assert s == s[..|s| - 1] + [last];
    if |s| == 1 {
      k := 0;
    } else {
      var j := DigitsAreDecimal(s[..|s| - 1]);
      var front := ParseDecimal(s[..|s| - 1]);
      if front == 0 {
        k := j + 1;
        assert s[..|s| - 1] == Zeros(k);
      } else {
        k := j;
        assert ParseDecimal(s) / 10 == front;
      }
    }
  }
}
