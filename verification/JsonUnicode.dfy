/** Code points as UTF-8 bytes, and the escapes of JSON strings that stand for them. */
module JsonUnicode {
  import opened Bytes

  /** codePointToUTF8; the masks and shifts are written as quotients and remainders. */
  function CodePointToUtf8(cp: nat): seq<byte> {
    if cp <= 0x7f then [cp]
    else if cp <= 0x7ff then [0xC0 + cp / 64 % 32, 0x80 + cp % 64]
    else if cp <= 0xffff then [0xE0 + cp / 4096 % 16, 0x80 + cp / 64 % 64, 0x80 + cp % 64]
    else if cp <= 0x10ffff then
      [0xF0 + cp / 262144 % 8, 0x80 + cp / 4096 % 64, 0x80 + cp / 64 % 64, 0x80 + cp % 64]
    else []
  }

  predicate Surrogate(cp: nat) { 0xD800 <= cp <= 0xDFFF }

  predicate Tail(c: byte) { 0x80 <= c <= 0xBF }

  /** One character in the syntax of section 4 of RFC 3629. */
  predicate Utf8Character(s: seq<byte>) {
    || (|s| == 1 && s[0] <= 0x7F)
    || (|s| == 2 && 0xC2 <= s[0] <= 0xDF && Tail(s[1]))
    || (|s| == 3 && Tail(s[1]) && Tail(s[2]) && (
          || (s[0] == 0xE0 && 0xA0 <= s[1]) || (0xE1 <= s[0] <= 0xEC)
          || (s[0] == 0xED && s[1] <= 0x9F) || (0xEE <= s[0] <= 0xEF)))
    || (|s| == 4 && Tail(s[1]) && Tail(s[2]) && Tail(s[3]) && (
          || (s[0] == 0xF0 && 0x90 <= s[1]) || (0xF1 <= s[0] <= 0xF3) || (s[0] == 0xF4 && s[1] <= 0x8F)))
  }

  /** The number whose bits section 3 of RFC 3629 distributes over the bytes. */
  function Utf8Value(s: seq<byte>): int
    requires 1 <= |s| <= 4
  {
    var lead: int := s[0];
    if |s| == 1 then lead
    else if |s| == 2 then Sextet(lead - 0xC0, s[1])
    else if |s| == 3 then Sextet(Sextet(lead - 0xE0, s[1]), s[2])
    else Sextet(Sextet(Sextet(lead - 0xF0, s[1]), s[2]), s[3])
  }

  /** Six more bits. */
  function Sextet(high: int, c: byte): int { high * 64 + (c as int - 0x80) }

  lemma {:induction false} Split(cp: nat)
    ensures Sextet(cp / 64, 0x80 + cp % 64) == cp
    ensures cp / 4096 == cp / 64 / 64 && cp / 262144 == cp / 64 / 64 / 64
  {
  }

  lemma {:induction false} Join(high: nat, c: byte)
    requires Tail(c)
    ensures Sextet(high, c) >= 0 && Sextet(high, c) / 64 == high && 0x80 + Sextet(high, c) % 64 == c
  {
  }

  /** The bytes carry the code point, and they are one character of RFC 3629 exactly when the code point is not a
      surrogate: surrogates are encoded too. */
  lemma {:induction false} Utf8OfCodePoint(cp: nat)
    requires cp <= 0x10ffff
    ensures var s := CodePointToUtf8(cp);
            1 <= |s| <= 4 && Utf8Value(s) == cp && (Utf8Character(s) <==> !Surrogate(cp))
  {
    var q := cp / 64;
    var q' := q / 64;
    Split(cp);
    Split(q);
    Split(q');
    if cp <= 0x7f {
    } else if cp <= 0x7ff {
      assert q % 32 == q;
    } else if cp <= 0xffff {
      Utf8OfThree(cp, q, q');
    } else {
      Utf8OfFour(cp, q, q');
    }
  }

  lemma {:induction false} Utf8OfThree(cp: nat, q: nat, q': nat)
    requires 0x7ff < cp <= 0xffff && q == cp / 64 && q' == cp / 4096 == q / 64
    requires Sextet(q, 0x80 + cp % 64) == cp && Sextet(q', 0x80 + q % 64) == q
    ensures var s := CodePointToUtf8(cp);
            |s| == 3 && Utf8Value(s) == cp && (Utf8Character(s) <==> !Surrogate(cp))
  {
    assert q' % 16 == q';
    var s := CodePointToUtf8(cp);
    assert s == [0xE0 + q', 0x80 + q % 64, 0x80 + cp % 64];
  }

  lemma {:induction false} Utf8OfFour(cp: nat, q: nat, q': nat)
    requires 0xffff < cp <= 0x10ffff && q == cp / 64 && q' == cp / 4096 == q / 64 && cp / 262144 == q' / 64
    requires Sextet(q, 0x80 + cp % 64) == cp && Sextet(q', 0x80 + q % 64) == q && Sextet(q' / 64, 0x80 + q' % 64) == q'
    ensures var s := CodePointToUtf8(cp);
            |s| == 4 && Utf8Value(s) == cp && Utf8Character(s)
  {
    var lead := q' / 64;
    assert lead <= 4 && lead % 8 == lead;
    var s := CodePointToUtf8(cp);
    assert s == [0xF0 + lead, 0x80 + q' % 64, 0x80 + q % 64, 0x80 + cp % 64];
  }

  /** Every character of RFC 3629 is the bytes of its code point. */
  lemma {:induction false} Utf8IsExact(s: seq<byte>)
    requires Utf8Character(s)
    ensures 0 <= Utf8Value(s) <= 0x10ffff && !Surrogate(Utf8Value(s)) && CodePointToUtf8(Utf8Value(s)) == s
  {
    var lead: int := s[0];
    if |s| == 2 {
      Join(lead - 0xC0, s[1]);
    } else if |s| == 3 {
      var a := Sextet(lead - 0xE0, s[1]);
      Join(lead - 0xE0, s[1]);
      Join(a, s[2]);
      ThreeIsExact(s, a);
    } else if |s| == 4 {
      var a := Sextet(lead - 0xF0, s[1]);
      var b := Sextet(a, s[2]);
      Join(lead - 0xF0, s[1]);
      Join(a, s[2]);
      Join(b, s[3]);
      FourIsExact(s, a, b);
    }
  }

  lemma {:induction false} ThreeIsExact(s: seq<byte>, a: nat)
    requires Utf8Character(s) && |s| == 3
    requires a == Sextet(s[0] as int - 0xE0, s[1]) && a / 64 == s[0] as int - 0xE0 && 0x80 + a % 64 == s[1]
    requires Sextet(a, s[2]) / 64 == a && 0x80 + Sextet(a, s[2]) % 64 == s[2]
    ensures 0 <= Utf8Value(s) <= 0x10ffff && !Surrogate(Utf8Value(s)) && CodePointToUtf8(Utf8Value(s)) == s
  {
    var cp := Sextet(a, s[2]);
    Split(cp);
    assert 0x7ff < cp <= 0xffff;
    assert cp / 4096 % 16 == cp / 4096;
  }

  lemma {:induction false} FourIsExact(s: seq<byte>, a: nat, b: nat)
    requires Utf8Character(s) && |s| == 4
    requires a == Sextet(s[0] as int - 0xF0, s[1]) && a / 64 == s[0] as int - 0xF0 && 0x80 + a % 64 == s[1]
    requires b == Sextet(a, s[2]) && b / 64 == a && 0x80 + b % 64 == s[2]
    requires Sextet(b, s[3]) / 64 == b && 0x80 + Sextet(b, s[3]) % 64 == s[3]
    ensures 0 <= Utf8Value(s) <= 0x10ffff && !Surrogate(Utf8Value(s)) && CodePointToUtf8(Utf8Value(s)) == s
  {
    var cp := Sextet(b, s[3]);
    Split(cp);
    assert 0xffff < cp <= 0x10ffff;
    assert cp / 262144 % 8 == cp / 262144;
  }

  // ---- Surrogate pairs ----

  /** The value that decodeUnicodeCodePoint makes of the two halves of a pair. */
  function CombinePair(high: nat, low: nat): nat { 0x10000 + high % 1024 * 1024 + low % 1024 }

  /** The two halves that section 2.1 of RFC 2781 prescribes for a code point beyond the basic plane. */
  ghost predicate Halves(cp: nat, high: nat, low: nat) {
    0x10000 <= cp <= 0x10ffff && high == 0xD800 + (cp - 0x10000) / 1024 && low == 0xDC00 + (cp - 0x10000) % 1024
  }

  lemma {:induction false} PairCombines(cp: nat, high: nat, low: nat)
    requires Halves(cp, high, low)
    ensures 0xD800 <= high <= 0xDBFF && 0xDC00 <= low <= 0xDFFF && CombinePair(high, low) == cp
  {
  }

  // ---- Hexadecimal digits ----

  /** The value of a hexadecimal digit of either case, -1 for any other character. */
  function HexDigit(c: byte): (v: int)
    ensures -1 <= v < 16
  {
    if 48 <= c <= 57 then c - 48
    else if 97 <= c <= 102 then c - 97 + 10
    else if 65 <= c <= 70 then c - 65 + 10
    else -1
  }

  predicate Hex4(h: seq<byte>) { |h| == 4 && forall i :: 0 <= i < 4 ==> HexDigit(h[i]) >= 0 }

  function Hex4Value(h: seq<byte>): nat
    requires Hex4(h)
  { ((HexDigit(h[0]) * 16 + HexDigit(h[1])) * 16 + HexDigit(h[2])) * 16 + HexDigit(h[3]) }

  /** std::hex with std::uppercase. */
  function UpperHex(v: nat): byte
    requires v < 16
  { if v < 10 then 48 + v else 65 + v - 10 }

  /** setw(4) and setfill('0') on a number of at most sixteen bits. */
  function UpperHex4(v: nat): seq<byte>
    requires v < 65536
  {
    [UpperHex(v / 4096), UpperHex(v / 256 % 16), UpperHex(v / 16 % 16), UpperHex(v % 16)]
  }

  lemma {:induction false} UpperHex4Value(v: nat)
    requires v < 65536
    ensures Hex4(UpperHex4(v)) && Hex4Value(UpperHex4(v)) == v
  {
    var h := UpperHex4(v);
    var a, b, c := v / 16, v / 16 / 16, v / 16 / 16 / 16;
    assert v / 256 == b && v / 4096 == c;
    UpperHexDigit(v % 16);
    UpperHexDigit(a % 16);
    UpperHexDigit(b % 16);
    UpperHexDigit(c);
    assert h == [UpperHex(c), UpperHex(b % 16), UpperHex(a % 16), UpperHex(v % 16)];
  }

  lemma {:induction false} UpperHexDigit(v: nat)
    requires v < 16
    ensures HexDigit(UpperHex(v)) == v
  {
  }
}
