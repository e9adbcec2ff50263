/** Bytes, and the decimal numerals that C's printf writes. */
module Bytes {
  type byte = b: int | 0 <= b < 256

  const CR: byte := 13
  const LF: byte := 10
  const MINUS: byte := 45
  const PLUS: byte := 43
  const ZERO: byte := 48

  predicate IsDigit(c: byte) { ZERO <= c <= ZERO + 9 }

  /** The numeral of a natural number, without leading zeros. */
  function Decimal(n: nat): (s: seq<byte>)
    ensures |s| > 0 && forall i :: 0 <= i < |s| ==> IsDigit(s[i])
  {
    if n < 10 then [(ZERO + n) as byte] else Decimal(n / 10) + [(ZERO + n % 10) as byte]
  }

  function SignedDecimal(n: int): (s: seq<byte>)
    ensures |s| > 0
  {
    if n < 0 then [MINUS] + Decimal(-n) else Decimal(n)
  }

  /** The value of a run of digits, continuing from `v`. */
  function DigitsValue(s: seq<byte>, v: nat): nat
    requires forall i :: 0 <= i < |s| ==> IsDigit(s[i])
  {
    if s == [] then v else assert IsDigit(s[0]); DigitsValue(s[1..], v * 10 + (s[0] - ZERO))
  }

  lemma {:induction false} DigitsValueAppend(s: seq<byte>, d: byte, v: nat)
    requires IsDigit(d) && forall i :: 0 <= i < |s| ==> IsDigit(s[i])
    ensures DigitsValue(s + [d], v) == DigitsValue(s, v) * 10 + (d - ZERO)
  {
    if s == [] {
      assert (s + [d])[1..] == [];
    } else {
      assert (s + [d])[1..] == s[1..] + [d];
      DigitsValueAppend(s[1..], d, v * 10 + (s[0] - ZERO));
    }
  }

  /** Reading a numeral back gives the number. */
  lemma {:induction false} DecimalValue(n: nat)
    ensures DigitsValue(Decimal(n), 0) == n
  {
    if n >= 10 {
      DecimalValue(n / 10);
      DigitsValueAppend(Decimal(n / 10), (ZERO + n % 10) as byte, 0);
    }
  }
}
