/** Decimal rendering of non-negative integers, as JavaScript writes a
    number into a string (`'' + 65`, a template literal), and its inverse. */
module Decimal {

  predicate IsDigit(c: char) {
    '0' <= c <= '9'
  }

  predicate AllDigits(s: string) {
    forall i :: 0 <= i < |s| ==> IsDigit(s[i])
  }

  function DigitChar(d: nat): (c: char)
    requires d < 10
    ensures IsDigit(c)
  {
    "0123456789"[d]
  }

  function DigitValue(c: char): (d: nat)
    requires IsDigit(c)
    ensures d < 10
    ensures d == 0 <==> c == '0'
  {
    (c as int - '0' as int) as nat
  }

  /** The shortest decimal string of `n`, without leading zeros: it
      starts with `0` only when it is "0". */
  function NatToString(n: nat): (s: string)
    ensures |s| >= 1
    ensures AllDigits(s)
    ensures s[0] == '0' <==> n == 0
    decreases n
  {
    if n < 10 then [DigitChar(n)] else NatToString(n / 10) + [DigitChar(n % 10)]
  }

  /** The value of a string of decimal digits ("" is 0). */
  function StringToNat(s: string): nat
    requires AllDigits(s)
    decreases |s|
  {
    if s == [] then 0 else StringToNat(s[..|s| - 1]) * 10 + DigitValue(s[|s| - 1])
  }

  lemma DigitRoundTrip(d: nat)
    requires d < 10
    ensures DigitValue(DigitChar(d)) == d
  {
    var digits := "0123456789";
    assert digits[d] as int == '0' as int + d by {
      assert digits == ['0', '1', '2', '3', '4', '5', '6', '7', '8', '9'];
    }
  }

  /** Reading back what NatToString wrote gives the number again. */
  lemma {:induction false} StringToNatOfNatToString(n: nat)
    ensures StringToNat(NatToString(n)) == n
    decreases n
  {
    var s := NatToString(n);
    if n < 10 {
      DigitRoundTrip(n);
      assert s[..|s| - 1] == [];
    } else {
      var p := NatToString(n / 10);
      assert s == p + [DigitChar(n % 10)];
      assert s[..|s| - 1] == p;
      StringToNatOfNatToString(n / 10);
      DigitRoundTrip(n % 10);
    }
  }

  lemma DigitCharOfValue(c: char)
    requires IsDigit(c)
    ensures DigitChar(DigitValue(c)) == c
  {
    var digits := "0123456789";
    assert digits == ['0', '1', '2', '3', '4', '5', '6', '7', '8', '9'];
  }

  /** A digit string without a leading zero is exactly the text NatToString
      writes for its value: no other text reads as that number. */
  lemma {:induction false} NatToStringOfStringToNat(s: string)
    requires AllDigits(s) && s != [] && s[0] != '0'
    ensures NatToString(StringToNat(s)) == s
    decreases |s|
  {
    var last := s[|s| - 1];
    DigitCharOfValue(last);
    if |s| == 1 {
      assert s[..0] == [];
    } else {
      var p := s[..|s| - 1];
      NatToStringOfStringToNat(p);
      var m := StringToNat(p);
      assert m != 0 by { assert NatToString(m)[0] == p[0] == s[0]; }
      var n := m * 10 + DigitValue(last);
      assert n / 10 == m && n % 10 == DigitValue(last);
      assert s == p + [last];
    }
  }
}
