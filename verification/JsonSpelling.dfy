/** Strings and numerals as RFC 8259 spells them, told without the functions of the reader, and what the reader makes of
    them. */
module JsonSpelling {
  import opened Bytes
  import opened JsonUnicode
  import opened JsonValue
  import opened JsonParser
  import opened JsonText
  import opened JsonRoundTrip

  // ---- Hexadecimal digits, of either case ----

  /** The character is a hexadecimal digit, from 0 to 9, from A to F or from a to f, and `v` is its value. */
  ghost predicate SpellsDigit(c: byte, v: int) {
    0 <= v < 16 && if v < 10 then c as int == 48 + v else c as int == 65 + (v - 10) || c as int == 97 + (v - 10)
  }

  /** The digits of a number of at most sixteen bits, the highest one first. */
  ghost predicate Spells4(h: seq<byte>, v: int) {
    |h| == 4 && 0 <= v < 65536 &&
    SpellsDigit(h[0], v / 4096) && SpellsDigit(h[1], v / 256 % 16) && SpellsDigit(h[2], v / 16 % 16) &&
    SpellsDigit(h[3], v % 16)
  }

  /** The reader takes a character for a digit exactly when it is one, and takes it for its value. */
  lemma {:induction false} DigitIffSpelled(c: byte, v: int)
    ensures HexDigit(c) == v && v >= 0 <==> SpellsDigit(c, v)
  {
  }

  lemma {:induction false} Spells4Value(h: seq<byte>, v: int)
    requires Spells4(h, v)
    ensures Hex4(h) && Hex4Value(h) == v
  {
    DigitIffSpelled(h[0], v / 4096);
    DigitIffSpelled(h[1], v / 256 % 16);
    DigitIffSpelled(h[2], v / 16 % 16);
    DigitIffSpelled(h[3], v % 16);
    assert forall i :: 0 <= i < 4 ==> HexDigit(h[i]) >= 0;
    var a, b, c := v / 16, v / 16 / 16, v / 16 / 16 / 16;
    assert v / 256 == b && v / 4096 == c;
    assert v == a * 16 + v % 16 && a == b * 16 + a % 16 && b == c * 16 + b % 16;
  }

  // ---- Between tokens, and inside numerals ----

  /** The white space of section 2 of RFC 8259. */
  const WHITE_SPACE: set<int> := {32, 9, 10, 13}

  /** Besides digits, what section 6 of RFC 8259 lets a numeral hold. */
  const NUMERAL_SIGNS: set<int> := {43, 45, 46, 69, 101}

  /** A token begins behind the white space, and only behind white space. */
  lemma {:induction false} WhiteSpacePasses(d: seq<byte>, p: nat, q: nat)
    requires p <= q <= |d| && forall i :: p <= i < q ==> d[i] as int in WHITE_SPACE
    requires q < |d| ==> d[q] as int !in WHITE_SPACE
    ensures ReadToken(d, p) == TokenAt(d, q)
    decreases q - p
  {
    hide TokenAt;
    if p < q { WhiteSpacePasses(d, p + 1, q); }
  }

  ghost predicate InNumeral(c: byte) { 48 <= c <= 57 || c as int in NUMERAL_SIGNS }

  /** A number token begins with a digit or a minus sign and goes on as long as its characters may stand in a numeral. */
  lemma {:induction false} NumberTokenEnds(d: seq<byte>, p: nat, q: nat)
    requires p < q <= |d| && (48 <= d[p] <= 57 || d[p] == 45)
    requires (forall i :: p <= i < q ==> InNumeral(d[i])) && (q < |d| ==> !InNumeral(d[q]))
    ensures TokenAt(d, p) == Token(NumberToken, p, q)
  {
    NumeralSkipped(d, p + 1, q);
  }

  lemma {:induction false} NumeralSkipped(d: seq<byte>, p: nat, q: nat)
    requires p <= q <= |d| && (forall i :: p <= i < q ==> InNumeral(d[i])) && (q < |d| ==> !InNumeral(d[q]))
    ensures SkipNumber(d, p) == q
    decreases q - p
  {
    if p < q { NumeralSkipped(d, p + 1, q); }
  }

  // ---- Pieces of a string ----

  /** The characters behind a backslash that section 7 of RFC 8259 gives a meaning, apart from u, and their meanings:
      quotation mark, backslash, slash, backspace, form feed, line feed, carriage return, tab. */
  const SHORT_ESCAPES: map<int, int> := map[34 := 34, 92 := 92, 47 := 47, 98 := 8, 102 := 12, 110 := 10, 114 := 13, 116 := 9]

  lemma {:induction false} ShortEscapes(e: byte)
    ensures ShortEscape(e) == if e as int in SHORT_ESCAPES then SHORT_ESCAPES[e as int] else -1
  {
  }

  /** A piece of a string says these bytes: a character other than the quotation mark and the backslash itself; a short
      escape its meaning; a code unit that opens no pair the UTF-8 bytes of its number; and a pair those of the number
      made of ten bits of each half. */
  ghost predicate Says(u: Unit, bytes: seq<byte>) {
    match u
    case Plain(c) => c != 34 && c != 92 && bytes == [c]
    case Short(e) => e as int in SHORT_ESCAPES && |bytes| == 1 && bytes[0] as int == SHORT_ESCAPES[e as int]
    case Escaped(h) => exists v: nat :: Spells4(h, v) && !(0xD800 <= v <= 0xDBFF) && bytes == CodePointToUtf8(v)
    case Pair(high, low) => exists v: nat, w: nat ::
      Spells4(high, v) && Spells4(low, w) && 0xD800 <= v <= 0xDBFF &&
      bytes == CodePointToUtf8(0x10000 + (v - 0xD800) * 1024 + w % 1024)
  }

  lemma {:induction false} SaysMeaning(u: Unit, bytes: seq<byte>)
    requires Says(u, bytes)
    ensures GoodUnit(u) && UnitMeaning(u) == bytes
  {
    hide Spells4, Hex4, Hex4Value, CodePointToUtf8;
    match u
    case Plain(c) =>
    case Short(e) => ShortEscapes(e);
    case Escaped(h) =>
      var v: nat :| Spells4(h, v) && !(0xD800 <= v <= 0xDBFF) && bytes == CodePointToUtf8(v);
      Spells4Value(h, v);
    case Pair(high, low) =>
      var v: nat, w: nat :| Spells4(high, v) && Spells4(low, w) && 0xD800 <= v <= 0xDBFF &&
        bytes == CodePointToUtf8(0x10000 + (v - 0xD800) * 1024 + w % 1024);
      Spells4Value(high, v);
      Spells4Value(low, w);
      assert v % 1024 == v - 0xD800;
  }

  ghost predicate AllSay(us: seq<Unit>, texts: seq<seq<byte>>) {
    |us| == |texts| && forall i :: 0 <= i < |us| ==> Says(us[i], texts[i])
  }

  function Concat(texts: seq<seq<byte>>): seq<byte> {
    if texts == [] then [] else texts[0] + Concat(texts[1..])
  }

  lemma {:induction false} AllSayMeaning(us: seq<Unit>, texts: seq<seq<byte>>)
    requires AllSay(us, texts)
    ensures GoodUnits(us) && UnitsMeaning(us) == Concat(texts)
    decreases |us|
  {
    hide Says, GoodUnit, UnitMeaning;
    if us != [] {
      SaysMeaning(us[0], texts[0]);
      AllSayMeaning(us[1..], texts[1..]);
      forall i | 0 <= i < |us| ensures GoodUnit(us[i]) {
        if i > 0 { assert us[i] == us[1..][i - 1]; }
      }
    }
  }

  /** Main result on strings: behind any prefix and under any suffix, pieces between quotation marks are one string
      token that ends at the right one, and it decodes to what the pieces say. */
  lemma {:induction false} SpelledStringReads(prefix: seq<byte>, us: seq<Unit>, texts: seq<seq<byte>>, suffix: seq<byte>)
    requires AllSay(us, texts)
    ensures var d := prefix + [QUOTE] + UnitsText(us) + [QUOTE] + suffix;
            var t := TokenAt(d, |prefix|);
            t == Token(StringToken, |prefix|, |prefix| + |UnitsText(us)| + 2) &&
            DecodeString(d, t) == Decoded(Concat(texts))
  {
    hide UnitsText, DecodeString, TokenAt, UnitsMeaning, GoodUnits, Says;
    AllSayMeaning(us, texts);
    StringRoundTrip(prefix, us, suffix);
  }

  /** As a value such a string is kept up to its first zero. */
  lemma {:induction false} SpelledStringIsValue(env: Env, prefix: seq<byte>, us: seq<Unit>, texts: seq<seq<byte>>,
                                                suffix: seq<byte>, old_: Value) returns (text: seq<byte>)
    requires AllSay(us, texts) && env.doc == prefix + [QUOTE] + UnitsText(us) + [QUOTE] + suffix
    ensures ReadValue(env, |prefix|, old_) == Outcome(true, Str(text), |prefix| + |UnitsText(us)| + 2, [])
    ensures text <= Concat(texts) && 0 !in text && (text == Concat(texts) || Concat(texts)[|text|] == 0)
  {
    hide UnitsText, DecodeString, TokenAt, Says, Concat, CStr;
    SpelledStringReads(prefix, us, texts, suffix);
    assert env.doc[|prefix|] == QUOTE;
    text := CStr(Concat(texts));
  }

  /** The piece writes the code point with escapes alone: one code unit, or beyond the basic plane the two halves. */
  ghost predicate WritesCodePoint(u: Unit, cp: nat) {
    if cp < 0x10000 then u.Escaped? && Spells4(u.h, cp)
    else u.Pair? && exists high: nat, low: nat :: Halves(cp, high, low) && Spells4(u.high, high) && Spells4(u.low, low)
  }

  function Utf8(cps: seq<nat>): seq<byte> {
    if cps == [] then [] else CodePointToUtf8(cps[0]) + Utf8(cps[1..])
  }

  lemma {:induction false} CodePointMeaning(u: Unit, cp: nat)
    requires WritesCodePoint(u, cp) && !Surrogate(cp)
    ensures GoodUnit(u) && UnitMeaning(u) == CodePointToUtf8(cp)
  {
    hide Spells4, Hex4, Hex4Value, CodePointToUtf8, CombinePair;
    if cp < 0x10000 {
      Spells4Value(u.h, cp);
    } else {
      var high: nat, low: nat :| Halves(cp, high, low) && Spells4(u.high, high) && Spells4(u.low, low);
      Spells4Value(u.high, high);
      Spells4Value(u.low, low);
      PairCombines(cp, high, low);
    }
  }

  lemma {:induction false} CodePointsMeaning(us: seq<Unit>, cps: seq<nat>)
    requires |us| == |cps| && forall i :: 0 <= i < |cps| ==> !Surrogate(cps[i]) && WritesCodePoint(us[i], cps[i])
    ensures GoodUnits(us) && UnitsMeaning(us) == Utf8(cps)
    decreases |us|
  {
    hide GoodUnit, UnitMeaning, WritesCodePoint, Surrogate;
    if cps != [] {
      CodePointMeaning(us[0], cps[0]);
      CodePointsMeaning(us[1..], cps[1..]);
      forall i | 0 <= i < |us| ensures GoodUnit(us[i]) {
        if i > 0 { assert us[i] == us[1..][i - 1]; }
      }
    }
  }

  /** Any Unicode text written with nothing but escaped code units, in digits of either case, decodes to its UTF-8
      bytes. */
  lemma {:induction false} EscapedTextRoundTrip(prefix: seq<byte>, us: seq<Unit>, cps: seq<nat>, suffix: seq<byte>)
    requires |us| == |cps| && forall i :: 0 <= i < |cps| ==> !Surrogate(cps[i]) && WritesCodePoint(us[i], cps[i])
    ensures var d := prefix + [QUOTE] + UnitsText(us) + [QUOTE] + suffix;
            var t := TokenAt(d, |prefix|);
            t == Token(StringToken, |prefix|, |prefix| + |UnitsText(us)| + 2) && DecodeString(d, t) == Decoded(Utf8(cps))
  {
    hide UnitsText, DecodeString, TokenAt, UnitsMeaning, GoodUnits, WritesCodePoint;
    CodePointsMeaning(us, cps);
    StringRoundTrip(prefix, us, suffix);
  }

  // ---- What the writers write ----

  /** The bytes that both writers give a short escape. */
  ghost predicate ShortIn(c: byte) { c == 34 || c == 92 || c == 8 || c == 12 || c == 10 || c == 13 || c == 9 }

  /** Each byte of a string becomes its short escape, if it is one of the seven that have one here; jsoncpp writes the other
      control characters as a code unit with upper-case digits; everything else stands for itself. */
  lemma {:induction false} WritersEscape(c: byte)
    ensures var u := WriterUnit(c);
            if ShortIn(c) then u.Short? && u.e as int in SHORT_ESCAPES && SHORT_ESCAPES[u.e as int] == c as int
            else if 1 <= c < 32
            then u.Escaped? && Spells4(u.h, c as int) && forall i :: 0 <= i < 4 ==> !(97 <= u.h[i] <= 102)
            else u == Plain(c)
    ensures KickstartUnit(c) == if ShortIn(c) then WriterUnit(c) else Plain(c)
  {
    if !ShortIn(c) && 1 <= c < 32 {
      var h := WriterUnit(c).h;
      assert h == UpperHex4(c);
      assert c as int / 4096 == 0 && c as int / 256 % 16 == 0;
    }
  }

  /** What jsoncpp writes of a string without zeros holds no control character, as section 7 of RFC 8259 demands. */
  lemma {:induction false} WriterTextIsPrintable(s: seq<byte>)
    requires NulFree(s)
    ensures forall i :: 0 <= i < |WriterText(s)| ==> WriterText(s)[i] >= 32
  {
    hide WriterUnit, UnitText;
    if s != [] {
      WriterTextIsPrintable(s[1..]);
      WriterUnitIsPrintable(s[0]);
      assert UnitsOf(WriterUnit, s)[1..] == UnitsOf(WriterUnit, s[1..]);
      assert WriterText(s) == UnitText(WriterUnit(s[0])) + WriterText(s[1..]);
    }
  }

  lemma {:induction false} WriterUnitIsPrintable(c: byte)
    requires c != 0
    ensures forall i :: 0 <= i < |UnitText(WriterUnit(c))| ==> UnitText(WriterUnit(c))[i] >= 32
  {
    WritersEscape(c);
    var t := UnitText(WriterUnit(c));
    if WriterUnit(c).Escaped? {
      var h := WriterUnit(c).h;
      assert t == [BACKSLASH, 117] + h;
      assert forall i :: 0 <= i < 4 ==> h[i] >= 48;
    }
  }

  // ---- Escapes that stand for nothing ----

  /** At `p` an escape begins that stands for nothing before the string ends at `end`, why, and where the reader is then:
      behind the offending character, or in front of the missing ones. */
  ghost predicate BrokenEscape(d: seq<byte>, p: nat, end: nat, why: Message, place: nat)
    requires end <= |d|
  {
    p + 1 < end && d[p] == 92 &&
    if d[p + 1] != 117 then why == BadEscape && d[p + 1] as int !in SHORT_ESCAPES && place == p + 2
    else BrokenUnit(d, p + 2, end, why, place) || BrokenPair(d, p + 2, end, why, place)
  }

  /** Fewer than four characters, or one among the four that is no digit. */
  ghost predicate BrokenUnit(d: seq<byte>, p: nat, end: nat, why: Message, place: nat)
    requires p <= end <= |d|
  {
    if end - p < 4 then why == FourDigitsExpected && place == p
    else why == HexDigitExpected && p < place <= p + 4 && NoDigit(d[place - 1]) && forall i :: p <= i < place - 1 ==> !NoDigit(d[i])
  }

  ghost predicate NoDigit(c: byte) { forall v :: !SpellsDigit(c, v) }

  ghost predicate OpensPair(h: seq<byte>) { exists v: nat :: Spells4(h, v) && 0xD800 <= v <= 0xDBFF }

  /** The first half of a pair, and no second half behind it. */
  ghost predicate BrokenPair(d: seq<byte>, p: nat, end: nat, why: Message, place: nat)
    requires p <= end <= |d|
  {
    p + 4 <= end && OpensPair(d[p..p + 4]) &&
    if end - (p + 4) < 6 then why == SixCharactersExpected && place == p + 4
    else if d[p + 4] != 92 then why == SecondHalfExpected && place == p + 5
    else if d[p + 5] != 117 then why == SecondHalfExpected && place == p + 6
    else BrokenUnit(d, p + 6, end, why, place)
  }

  lemma {:induction false} NoDigitIff(c: byte)
    ensures NoDigit(c) <==> HexDigit(c) < 0
  {
    DigitIffSpelled(c, HexDigit(c));
    forall v ensures SpellsDigit(c, v) ==> HexDigit(c) == v { DigitIffSpelled(c, v); }
  }

  lemma {:induction false} BrokenUnitFails(d: seq<byte>, p: nat, end: nat, why: Message, place: nat)
    requires p <= end <= |d| && BrokenUnit(d, p, end, why, place)
    ensures EscapeSequence(d, p, end) == BadUnit(why, place)
  {
    if end - p >= 4 {
      NoDigitIff(d[place - 1]);
      forall i | p <= i < place - 1 ensures HexDigit(d[i]) >= 0 { NoDigitIff(d[i]); }
      BadDigit(d, p, 0, 0, place - 1);
    }
  }

  lemma {:induction false} BadDigit(d: seq<byte>, p: nat, k: nat, value: nat, i: nat)
    requires k <= 4 && p <= i < p + (4 - k) <= |d| && HexDigit(d[i]) < 0 && forall j :: p <= j < i ==> HexDigit(d[j]) >= 0
    ensures HexDigits(d, p, k, value) == BadUnit(HexDigitExpected, i + 1)
    decreases 4 - k
  {
    hide HexDigit;
    if HexDigit(d[p]) >= 0 { BadDigit(d, p + 1, k + 1, value * 16 + HexDigit(d[p]), i); }
  }

  lemma {:induction false} BrokenEscapeFails(d: seq<byte>, p: nat, end: nat, why: Message, place: nat)
    requires end <= |d| && BrokenEscape(d, p, end, why, place)
    ensures DecodeFrom(d, p, end) == Undecodable(why, place)
  {
    hide EscapeSequence, Spells4, Hex4, Hex4Value, BrokenUnit, ShortEscape;
    ShortEscapes(d[p + 1]);
    if d[p + 1] == 117 {
      if BrokenUnit(d, p + 2, end, why, place) {
        BrokenUnitFails(d, p + 2, end, why, place);
      } else {
        var h := d[p + 2..p + 6];
        assert OpensPair(h);
        var v: nat :| Spells4(h, v) && 0xD800 <= v <= 0xDBFF;
        Spells4Value(h, v);
        ReadsHex(d, p + 2, end, h);
        if end - (p + 6) >= 6 && d[p + 6] == 92 && d[p + 7] == 117 { BrokenUnitFails(d, p + 8, end, why, place); }
      }
    }
  }

  /** Good pieces, and then an escape that stands for nothing: the string is refused, and it is told why and where. */
  lemma {:induction false} BrokenStringFails(d: seq<byte>, p: nat, us: seq<Unit>, texts: seq<seq<byte>>, end: nat, why: Message,
                                             place: nat)
    requires AllSay(us, texts) && p + |UnitsText(us)| <= end <= |d| && d[p..p + |UnitsText(us)|] == UnitsText(us)
    requires BrokenEscape(d, p + |UnitsText(us)|, end, why, place)
    ensures DecodeFrom(d, p, end) == Undecodable(why, place)
    decreases |us|
  {
    hide Says, UnitText, GoodUnit, UnitMeaning, BrokenEscape, DecodeFrom;
    if us == [] {
      BrokenEscapeFails(d, p, end, why, place);
    } else {
      var n := |UnitText(us[0])|;
      assert UnitsText(us) == UnitText(us[0]) + UnitsText(us[1..]);
      SliceParts(d, p, UnitText(us[0]), UnitsText(us[1..]));
      SaysMeaning(us[0], texts[0]);
      DecodeUnit(d, p, end, us[0]);
      BrokenStringFails(d, p + n, us[1..], texts[1..], end, why, place);
    }
  }

  // ---- Numerals ----

  /** A numeral of section 6 of RFC 8259 in its parts; an absent fraction or exponent has no digits. */
  datatype JsonNumber = JsonNumber(negative: bool, whole: seq<byte>, fraction: seq<byte>, mark: byte, sign: seq<byte>,
                                   exponent: seq<byte>)

  ghost predicate Digits(s: seq<byte>) { forall i :: 0 <= i < |s| ==> 48 <= s[i] <= 57 }

  ghost predicate GoodNumber(n: JsonNumber) {
    n.whole != [] && Digits(n.whole) && Digits(n.fraction) && Digits(n.exponent) &&
    (n.mark == 101 || n.mark == 69) && (n.sign == [] || n.sign == [43] || n.sign == [45])
  }

  function NumberText(n: JsonNumber): seq<byte> {
    (if n.negative then [45] else []) + n.whole + (if n.fraction == [] then [] else [46] + n.fraction) +
    (if n.exponent == [] then [] else [n.mark] + n.sign + n.exponent)
  }

  lemma {:induction false} NumberTextIsToken(n: JsonNumber)
    requires GoodNumber(n)
    ensures GoodTok(Numeral(NumberText(n)))
    ensures n.fraction != [] || n.exponent != [] ==> LooksDouble(NumberText(n))
  {
    var sign: seq<byte> := if n.negative then [45] else [];
    var front := sign + n.whole;
    var text := NumberText(n);
    forall i | 0 <= i < |text| ensures NumberCharacter(text[i]) {
      if i < |front| { assert text[i] == front[i]; }
    }
    assert text[0] == front[0];
    if n.fraction != [] {
      assert text[|front|] == 46;
      assert DoubleCharacter(text, |front|);
    } else if n.exponent != [] {
      assert text[|front|] == n.mark;
      assert DoubleCharacter(text, |front|);
    }
  }

  /** A numeral with a fraction or an exponent is one token, and becomes whatever double its text is scanned as. */
  lemma {:induction false} FractionIsDouble(env: Env, p: nat, n: JsonNumber, us: seq<Tok>, old_: Value) returns (next: nat)
    requires GoodNumber(n) && (n.fraction != [] || n.exponent != [])
    requires EndsNumeral(us) && p <= |env.doc| && Spaced(env.doc[p..], [Numeral(NumberText(n))] + us)
    ensures next <= |env.doc| && Spaced(env.doc[next..], us)
    ensures var r := ReadValue(env, p, old_);
            match env.scan(NumberText(n))
            case Number(x) => r == Outcome(true, Real(x), next, [])
            case NoNumber => !r.ok && r.value == old_ && r.next == next && |r.errors| == 1 && r.errors[0].message == NotANumber
  {
    hide ReadToken, Spaced, GoodTok, LooksDouble, SkipComments, ReadItems, ReadMembers, NumberText;
    NumberTextIsToken(n);
    var text := NumberText(n);
    var start := TakeToken(env.doc, p, Numeral(text), us);
    next := start + |text|;
    assert ValueToken(env, p) == Token(NumberToken, start, next);
  }
}
