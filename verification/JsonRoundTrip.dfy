/** Reading inverts writing: strings, numbers, token streams, and whole values. */
module JsonRoundTrip {
  import opened Bytes
  import opened JsonUnicode
  import opened JsonValue
  import opened JsonParser
  import opened JsonText

  // ---- Strings ----

  predicate Ordinary(c: byte) { c != QUOTE && c != BACKSLASH }

  lemma {:induction false} SkipOrdinary(d: seq<byte>, p: nat, n: nat)
    requires p + n <= |d| && forall i :: p <= i < p + n ==> Ordinary(d[i])
    ensures SkipString(d, p) == SkipString(d, p + n)
    decreases n
  {
    if n > 0 { SkipOrdinary(d, p + 1, n - 1); }
  }

  /** A hexadecimal code unit is passed over. */
  lemma {:induction false} SkipEscaped(d: seq<byte>, p: nat, h: seq<byte>)
    requires Hex4(h) && p + 6 <= |d| && d[p..p + 6] == [BACKSLASH, 117] + h
    ensures SkipString(d, p) == SkipString(d, p + 6)
  {
    assert d[p] == d[p..p + 6][0] == BACKSLASH && d[p + 1] == d[p..p + 6][1];
    forall i | p + 2 <= i < p + 6 ensures Ordinary(d[i]) {
      assert d[i] == d[p..p + 6][i - p] == h[i - p - 2];
      assert HexDigit(h[i - p - 2]) >= 0;
    }
    SkipOrdinary(d, p + 2, 4);
  }

  lemma {:induction false} SkipUnit(d: seq<byte>, p: nat, u: Unit)
    requires GoodUnit(u) && p + |UnitText(u)| <= |d| && d[p..p + |UnitText(u)|] == UnitText(u)
    ensures SkipString(d, p) == SkipString(d, p + |UnitText(u)|)
  {
    var t := UnitText(u);
    assert d[p] == d[p..p + |t|][0];
    match u
    case Plain(c) =>
    case Short(e) =>
    case Escaped(h) => SkipEscaped(d, p, h);
    case Pair(high, low) =>
      assert d[p..p + 6] == d[p..p + 12][..6] == [BACKSLASH, 117] + high;
      assert d[p + 6..p + 12] == d[p..p + 12][6..] == [BACKSLASH, 117] + low;
      SkipEscaped(d, p, high);
      SkipEscaped(d, p + 6, low);
  }

  lemma {:induction false} SkipUnits(d: seq<byte>, p: nat, us: seq<Unit>)
    requires GoodUnits(us) && p + |UnitsText(us)| < |d|
    requires d[p..p + |UnitsText(us)|] == UnitsText(us) && d[p + |UnitsText(us)|] == QUOTE
    ensures SkipString(d, p) == Scan(p + |UnitsText(us)| + 1, true)
    decreases |us|
  {
    hide UnitText, GoodUnit;
    if us != [] {
      var n := |UnitText(us[0])|;
      SliceParts(d, p, UnitText(us[0]), UnitsText(us[1..]));
      SkipUnit(d, p, us[0]);
      SkipUnits(d, p + n, us[1..]);
    }
  }

  lemma {:induction false} SliceParts<T>(d: seq<T>, p: nat, a: seq<T>, b: seq<T>)
    requires p + |a| + |b| <= |d| && d[p..p + |a| + |b|] == a + b
    ensures d[p..p + |a|] == a && d[p + |a|..p + |a| + |b|] == b
  {
    assert d[p..p + |a|] == d[p..p + |a| + |b|][..|a|];
    assert d[p + |a|..p + |a| + |b|] == d[p..p + |a| + |b|][|a|..];
  }

  /** Four digits are read as their value. */
  lemma {:induction false} ReadsHex(d: seq<byte>, p: nat, end: nat, h: seq<byte>)
    requires Hex4(h) && p + 4 <= end <= |d| && d[p..p + 4] == h
    ensures EscapeSequence(d, p, end) == CodeUnit(Hex4Value(h), p + 4)
  {
    assert d[p] == h[0] && d[p + 1] == h[1] && d[p + 2] == h[2] && d[p + 3] == h[3];
    var v1: nat := HexDigit(h[0]);
    var v2 := v1 * 16 + HexDigit(h[1]);
    var v3 := v2 * 16 + HexDigit(h[2]);
    var v4 := v3 * 16 + HexDigit(h[3]);
    assert HexDigits(d, p + 4, 4, v4) == CodeUnit(v4, p + 4);
    assert HexDigits(d, p + 3, 3, v3) == HexDigits(d, p + 4, 4, v4);
    assert HexDigits(d, p + 2, 2, v2) == HexDigits(d, p + 3, 3, v3);
    assert HexDigits(d, p + 1, 1, v1) == HexDigits(d, p + 2, 2, v2);
    assert HexDigits(d, p, 0, 0) == HexDigits(d, p + 1, 1, v1);
  }

  lemma {:induction false} DecodeUnit(d: seq<byte>, p: nat, end: nat, u: Unit)
    requires GoodUnit(u) && p + |UnitText(u)| <= end <= |d| && d[p..p + |UnitText(u)|] == UnitText(u)
    ensures DecodeFrom(d, p, end) == DecodeFrom(d, p + |UnitText(u)|, end).Behind(UnitMeaning(u))
  {
    hide HexDigits, Hex4Value;
    var t := UnitText(u);
    assert d[p] == d[p..p + |t|][0];
    if |t| > 1 { assert d[p + 1] == d[p..p + |t|][1]; }
    match u
    case Plain(c) =>
    case Short(e) =>
    case Escaped(h) =>
      SliceParts(d, p, [BACKSLASH, 117], h);
      ReadsHex(d, p + 2, end, h);
      assert CodePoint(d, p + 2, end) == CodeUnit(Hex4Value(h), p + 6);
    case Pair(high, low) =>
      ReadsPair(d, p, end, high, low);
  }

  lemma {:induction false} ReadsPair(d: seq<byte>, p: nat, end: nat, high: seq<byte>, low: seq<byte>)
    requires GoodUnit(Pair(high, low)) && p + 12 <= end <= |d| && d[p..p + 12] == UnitText(Pair(high, low))
    ensures CodePoint(d, p + 2, end) == CodeUnit(CombinePair(Hex4Value(high), Hex4Value(low)), p + 12)
  {
    hide HexDigits, Hex4Value, EscapeSequence;
    var a: seq<byte> := [BACKSLASH, 117];
    assert d[p..p + 12] == a + high + a + low;
    SliceParts(d, p, a + high, a + low);
    SliceParts(d, p, a, high);
    SliceParts(d, p + 6, a, low);
    ReadsHex(d, p + 2, end, high);
    ReadsHex(d, p + 8, end, low);
    assert d[p + 6] == d[p + 6..p + 8][0] && d[p + 7] == d[p + 6..p + 8][1];
  }

  lemma {:induction false} DecodeUnits(d: seq<byte>, p: nat, end: nat, us: seq<Unit>)
    requires GoodUnits(us) && end == p + |UnitsText(us)| <= |d| && d[p..end] == UnitsText(us)
    ensures DecodeFrom(d, p, end) == Decoded(UnitsMeaning(us))
    decreases |us|
  {
    hide UnitText, GoodUnit, UnitMeaning;
    if us != [] {
      assert UnitsText(us) == UnitText(us[0]) + UnitsText(us[1..]);
      assert UnitsMeaning(us) == UnitMeaning(us[0]) + UnitsMeaning(us[1..]);
      hide DecodeFrom, UnitsText, UnitsMeaning;
      SliceParts(d, p, UnitText(us[0]), UnitsText(us[1..]));
      DecodeUnit(d, p, end, us[0]);
      DecodeUnits(d, p + |UnitText(us[0])|, end, us[1..]);
    }
  }

  /** Main result on strings: behind any prefix and under any suffix, a quoted sequence of pieces is one string
      token that ends at the right quote, and it decodes to what the pieces mean. */
  lemma {:induction false} StringRoundTrip(prefix: seq<byte>, us: seq<Unit>, suffix: seq<byte>)
    requires GoodUnits(us)
    ensures var d := prefix + [QUOTE] + UnitsText(us) + [QUOTE] + suffix;
            var t := TokenAt(d, |prefix|);
            t == Token(StringToken, |prefix|, |prefix| + |UnitsText(us)| + 2) &&
            DecodeString(d, t) == Decoded(UnitsMeaning(us))
  {
    var text := UnitsText(us);
    var d := prefix + [QUOTE] + text + [QUOTE] + suffix;
    QuotedAt(d, |prefix|, us);
  }

  lemma {:induction false} QuotedAt(d: seq<byte>, p: nat, us: seq<Unit>)
    requires GoodUnits(us) && p + |UnitsText(us)| + 2 <= |d|
    requires d[p..p + |UnitsText(us)| + 2] == [QUOTE] + UnitsText(us) + [QUOTE]
    ensures TokenAt(d, p) == Token(StringToken, p, p + |UnitsText(us)| + 2)
    ensures DecodeString(d, TokenAt(d, p)) == Decoded(UnitsMeaning(us))
  {
    hide UnitsText, UnitsMeaning, SkipString, DecodeFrom;
    var text := UnitsText(us);
    var q := p + 1 + |text|;
    SliceParts(d, p, [QUOTE] + text, [QUOTE]);
    SliceParts(d, p, [QUOTE], text);
    assert d[p] == d[p..p + 1][0] && d[q] == d[q..q + 1][0];
    SkipUnits(d, p + 1, us);
    DecodeUnits(d, p + 1, q, us);
  }

  /** The quoting of the writers is undone, for every string (in memory, a zero byte ends the string before it is
      quoted). */
  lemma {:induction false} WriterStringRoundTrip(prefix: seq<byte>, s: seq<byte>, suffix: seq<byte>)
    ensures var d := prefix + Quoted(s) + suffix;
            var t := TokenAt(d, |prefix|);
            t == Token(StringToken, |prefix|, |prefix| + |Quoted(s)|) && DecodeString(d, t) == Decoded(s)
  {
    hide UnitsOf, UnitsText, DecodeString, TokenAt, UnitsMeaning, GoodUnits;
    WriterEscapes();
    UnitsOfMeaning(WriterUnit, s);
    StringRoundTrip(prefix, UnitsOf(WriterUnit, s), suffix);
    assert prefix + Quoted(s) + suffix == prefix + [QUOTE] + WriterText(s) + [QUOTE] + suffix;
  }

  /** The result of escapeJsonString between quotes is undone, for every string. */
  lemma {:induction false} KickstartStringRoundTrip(prefix: seq<byte>, s: seq<byte>, suffix: seq<byte>)
    ensures var d := prefix + [QUOTE] + KickstartText(s) + [QUOTE] + suffix;
            var t := TokenAt(d, |prefix|);
            t == Token(StringToken, |prefix|, |prefix| + |KickstartText(s)| + 2) && DecodeString(d, t) == Decoded(s)
  {
    hide UnitsOf, UnitsText, DecodeString, TokenAt, UnitsMeaning, GoodUnits;
    KickstartEscapes();
    UnitsOfMeaning(KickstartUnit, s);
    StringRoundTrip(prefix, UnitsOf(KickstartUnit, s), suffix);
  }

  // ---- Numbers ----

  lemma {:induction false} IntegerFromDigits(digits: seq<byte>, d: byte, value: nat, threshold: nat)
    requires IsDigit(d) && forall i :: 0 <= i < |digits| ==> IsDigit(digits[i])
    ensures IntegerFrom(digits + [d], value, threshold) == (
      match IntegerFrom(digits, value, threshold)
      case Exact(n) => if n >= threshold then Inexact else Exact(n * 10 + (d - ZERO))
      case other => other)
    decreases |digits|
  {
    if digits == [] {
      assert (digits + [d])[1..] == [];
      assert IntegerFrom([], value * 10 + (d - ZERO), threshold) == Exact(value * 10 + (d - ZERO));
    } else {
      assert (digits + [d])[1..] == digits[1..] + [d];
      assert IsDigit(digits[0]);
      if value < threshold { IntegerFromDigits(digits[1..], d, value * 10 + (digits[0] - ZERO), threshold); }
    }
  }

  lemma {:induction false} IntegerOfDecimal(n: nat, threshold: nat)
    requires threshold > 0
    ensures IntegerFrom(Decimal(n), 0, threshold) == if n < threshold * 10 then Exact(n) else Inexact
  {
    if n < 10 {
      assert Decimal(n)[1..] == [];
    } else {
      IntegerOfDecimal(n / 10, threshold);
      IntegerFromDigits(Decimal(n / 10), (ZERO + n % 10) as byte, 0, threshold);
    }
  }

  /** The numeral of a number is read as an integer, and then as this number, exactly in the range from -2147483639
      to 4294967289; beyond it, it becomes a double. */
  lemma {:induction false} NumeralRoundTrip(n: int)
    ensures Integer(SignedDecimal(n)) == if -2147483639 <= n <= 4294967289 then Exact(n) else Inexact
  {
    var s := SignedDecimal(n);
    if n < 0 {
      IntegerOfDecimal(-n, NEGATIVE_THRESHOLD);
      assert s[1..] == Decimal(-n);
    } else {
      IntegerOfDecimal(n, POSITIVE_THRESHOLD);
      assert IsDigit(s[0]);
    }
    NumeralCharacters(n);
  }

  lemma {:induction false} NumeralCharacters(n: int)
    ensures !LooksDouble(SignedDecimal(n)) && (IsDigit(SignedDecimal(n)[0]) || SignedDecimal(n)[0] == MINUS)
    ensures forall i :: 0 <= i < |SignedDecimal(n)| ==> NumberCharacter(SignedDecimal(n)[i])
  {
    var s := SignedDecimal(n);
    forall i | 0 <= i < |s| ensures IsDigit(s[i]) || (i == 0 && s[i] == MINUS) {
      if n < 0 && i > 0 { assert s[i] == Decimal(-n)[i - 1]; }
    }
  }

  // ---- Token streams ----

  predicate IsPunct(c: byte) { c == 123 || c == 125 || c == 91 || c == 93 || c == 44 || c == 58 }

  /** The texts that the tokenizer takes for one token. */
  predicate GoodTok(t: Tok) {
    match t
    case Punct(c) => IsPunct(c)
    case Word(kind) => kind == NullToken || kind == TrueToken || kind == FalseToken
    case Numeral(text) => text != [] && (IsDigit(text[0]) || text[0] == MINUS) &&
      forall i :: 0 <= i < |text| ==> NumberCharacter(text[i])
    case Text(s) => true
  }

  function TokKind(t: Tok): TokenType {
    match t
    case Punct(c) =>
      if c == 123 then ObjectBegin else if c == 125 then ObjectEnd else if c == 91 then ArrayBegin
      else if c == 93 then ArrayEnd else if c == 44 then ArraySeparator else MemberSeparator
    case Word(kind) => kind
    case Numeral(_) => NumberToken
    case Text(_) => StringToken
  }

  /** A numeral ends where no character of a number follows: in front of every token but another numeral. */
  predicate EndsNumeral(ts: seq<Tok>) { ts != [] ==> !ts[0].Numeral? && GoodTok(ts[0]) }

  predicate MayFollow(t: Tok, ts: seq<Tok>) { t.Numeral? ==> EndsNumeral(ts) }

  lemma {:induction false} SkipBlank(d: seq<byte>, p: nat, n: nat)
    requires p + n <= |d| && Blank(d[p..p + n]) && (p + n < |d| ==> !IsSpace(d[p + n]))
    ensures SkipSpaces(d, p) == p + n
    decreases n
  {
    if n > 0 {
      assert d[p] == d[p..p + n][0];
      assert d[p + 1..p + n] == d[p..p + n][1..];
      SkipBlank(d, p + 1, n - 1);
    }
  }

  lemma {:induction false} SkipNumeral(d: seq<byte>, p: nat, n: nat)
    requires p + n <= |d| && forall i :: p <= i < p + n ==> NumberCharacter(d[i])
    requires p + n < |d| ==> !NumberCharacter(d[p + n])
    ensures SkipNumber(d, p) == p + n
    decreases n
  {
    if n > 0 { SkipNumeral(d, p + 1, n - 1); }
  }

  lemma {:induction false} FirstOfToken(t: Tok)
    requires GoodTok(t) && !t.Numeral?
    ensures |TokText(t)| > 0 && !NumberCharacter(TokText(t)[0])
  {
  }

  /** Behind a numeral the text goes on with a blank or another token. */
  lemma {:induction false} NumeralEnds(text: seq<byte>, ts: seq<Tok>)
    requires Spaced(text, ts) && EndsNumeral(ts)
    ensures text != [] ==> !NumberCharacter(text[0])
  {
    if ts != [] {
      hide Quoted;
      var n := SpacedInverse(text, ts);
      FirstOfToken(ts[0]);
      if n > 0 {
        assert text[..n][0] == text[0];
      } else {
        assert text[0] == text[0..|TokText(ts[0])|][0];
      }
    }
  }

  lemma {:induction false} TextReads(d: seq<byte>, p: nat, s: seq<byte>)
    requires p + |Quoted(s)| <= |d| && d[p..p + |Quoted(s)|] == Quoted(s)
    ensures TokenAt(d, p) == Token(StringToken, p, p + |Quoted(s)|) && d[p] == QUOTE
    ensures DecodeString(d, TokenAt(d, p)) == Decoded(s)
  {
    hide TokenAt, DecodeString, UnitsOf, UnitsText;
    WriterEscapes();
    UnitsOfMeaning(WriterUnit, s);
    QuotedAt(d, p, UnitsOf(WriterUnit, s));
    assert d[p] == d[p..p + |Quoted(s)|][0];
  }

  lemma {:induction false} NumeralReads(d: seq<byte>, p: nat, text: seq<byte>)
    requires GoodTok(Numeral(text)) && p + |text| <= |d| && d[p..p + |text|] == text
    requires p + |text| < |d| ==> !NumberCharacter(d[p + |text|])
    ensures TokenAt(d, p) == Token(NumberToken, p, p + |text|) && !IsSpace(d[p])
  {
    forall i | p <= i < p + |text| ensures NumberCharacter(d[i]) { assert d[i] == d[p..p + |text|][i - p]; }
    assert d[p] == d[p..p + |text|][0] == text[0];
    SkipNumeral(d, p + 1, |text| - 1);
  }

  lemma {:induction false} WordReads(d: seq<byte>, p: nat, t: Tok)
    requires GoodTok(t) && t.Word? && p + |TokText(t)| <= |d| && d[p..p + |TokText(t)|] == TokText(t)
    ensures TokenAt(d, p) == Token(TokKind(t), p, p + |TokText(t)|) && !IsSpace(d[p])
  {
    hide SkipString, SkipComment, SkipNumber;
    var text := TokText(t);
    assert d[p] == d[p..p + |text|][0] == text[0];
    assert d[p + 1..p + 1 + (|text| - 1)] == d[p..p + |text|][1..] == text[1..];
  }

  lemma {:induction false} PunctReads(d: seq<byte>, p: nat, t: Tok)
    requires GoodTok(t) && t.Punct? && p < |d| && d[p..p + 1] == [t.c]
    ensures TokenAt(d, p) == Token(TokKind(t), p, p + 1) && !IsSpace(d[p])
  {
    hide SkipString, SkipComment, SkipNumber;
    assert d[p] == d[p..p + 1][0];
  }

  /** The token that stands at `p` is read as one token, whatever follows. */
  lemma {:induction false} TokenReads(d: seq<byte>, p: nat, t: Tok)
    requires GoodTok(t) && p + |TokText(t)| <= |d| && d[p..p + |TokText(t)|] == TokText(t)
    requires t.Numeral? && p + |TokText(t)| < |d| ==> !NumberCharacter(d[p + |TokText(t)|])
    ensures p < |d| && TokenAt(d, p) == Token(TokKind(t), p, p + |TokText(t)|)
    ensures !IsSpace(d[p])
    ensures t.Text? ==> DecodeString(d, TokenAt(d, p)) == Decoded(t.s)
  {
    hide TokenAt, DecodeString, Quoted;
    TokenNonempty(t);
    if t.Text? {
      TextReads(d, p, t.s);
    } else if t.Numeral? {
      NumeralReads(d, p, t.text);
    } else if t.Word? {
      WordReads(d, p, t);
    } else {
      PunctReads(d, p, t);
    }
  }

  /** Where the next token of a stream stands. */
  lemma {:induction false} TokenStands(d: seq<byte>, p: nat, t: Tok, ts: seq<Tok>) returns (start: nat)
    requires p <= |d| && Spaced(d[p..], [t] + ts)
    ensures p <= start && start + |TokText(t)| <= |d| && Blank(d[p..start])
    ensures d[start..start + |TokText(t)|] == TokText(t) && Spaced(d[start + |TokText(t)|..], ts)
  {
    hide TokText, Blank;
    var n := SpacedInverse(d[p..], [t] + ts);
    assert ([t] + ts)[0] == t && ([t] + ts)[1..] == ts;
    start := p + n;
    Slices(d, p, n, n + |TokText(t)|);
  }

  lemma {:induction false} Slices(d: seq<byte>, p: nat, n: nat, end: nat)
    requires p + n <= p + end <= |d|
    ensures d[p..][..n] == d[p..p + n] && d[p..][n..end] == d[p + n..p + end] && d[p..][end..] == d[p + end..]
  {
  }

  /** The next token of a stream is read, and the rest of the stream stands behind it. */
  lemma {:induction false} TakeToken(d: seq<byte>, p: nat, t: Tok, ts: seq<Tok>) returns (start: nat)
    requires p <= |d| && Spaced(d[p..], [t] + ts) && GoodTok(t) && MayFollow(t, ts)
    ensures p <= start && start + |TokText(t)| <= |d| && start < |d|
    ensures d[start..start + |TokText(t)|] == TokText(t) && SkipSpaces(d, p) == start
    ensures ReadToken(d, p) == Token(TokKind(t), start, start + |TokText(t)|)
    ensures t.Text? ==> DecodeString(d, ReadToken(d, p)) == Decoded(t.s)
    ensures Spaced(d[start + |TokText(t)|..], ts)
  {
    hide TokText, DecodeString, TokenAt, GoodTok, SkipSpaces, IsSpace, Spaced, TokKind, NumberCharacter;
    start := TokenStands(d, p, t, ts);
    var end := start + |TokText(t)|;
    if t.Numeral? {
      NumeralEnds(d[end..], ts);
      if end < |d| { assert d[end..][0] == d[end]; }
    }
    TokenReads(d, start, t);
    TokenNonempty(t);
    SkipBlank(d, p, start - p);
  }

  lemma {:induction false} TokenNonempty(t: Tok)
    requires GoodTok(t)
    ensures |TokText(t)| > 0
  {
  }

  lemma {:induction false} SpacedEnd(d: seq<byte>, p: nat)
    requires p <= |d| && Spaced(d[p..], [])
    ensures ReadToken(d, p) == Token(EndOfStream, |d|, |d|)
  {
    assert d[p..] == d[p..p + (|d| - p)];
    SkipBlank(d, p, |d| - p);
  }

  /** All tokens from `p` to the end of the stream: their kinds and their texts. */
  function Lexemes(d: seq<byte>, p: nat): seq<(TokenType, seq<byte>)>
    requires p <= |d|
    decreases |d| - p
  {
    var t := ReadToken(d, p);
    if t.kind == EndOfStream then [] else [(t.kind, d[t.start..t.end])] + Lexemes(d, t.end)
  }

  ghost predicate GoodStream(ts: seq<Tok>) {
    forall i :: 0 <= i < |ts| ==> GoodTok(ts[i]) && MayFollow(ts[i], ts[i + 1..])
  }

  function StreamLexemes(ts: seq<Tok>): seq<(TokenType, seq<byte>)> {
    if ts == [] then [] else [(TokKind(ts[0]), TokText(ts[0]))] + StreamLexemes(ts[1..])
  }

  /** The tokenizer finds exactly the tokens of a spaced text, however it is spaced. */
  lemma {:induction false} TokenizerFindsStream(d: seq<byte>, p: nat, ts: seq<Tok>)
    requires p <= |d| && Spaced(d[p..], ts) && GoodStream(ts)
    ensures Lexemes(d, p) == StreamLexemes(ts)
    decreases |ts|
  {
    hide TokText, GoodTok, ReadToken, Spaced, TokenAt, SkipSpaces;
    if ts == [] {
      SpacedEnd(d, p);
    } else {
      assert [ts[0]] + ts[1..] == ts;
      var start := TakeToken(d, p, ts[0], ts[1..]);
      assert TokKind(ts[0]) != EndOfStream by { assert GoodTok(ts[0]); TokKindIsReal(ts[0]); }
      forall i | 0 <= i < |ts[1..]| ensures GoodTok(ts[1..][i]) && MayFollow(ts[1..][i], ts[1..][i + 1..]) {
        assert ts[1..][i] == ts[i + 1] && ts[1..][i + 1..] == ts[i + 1 + 1..];
      }
      TokenizerFindsStream(d, start + |TokText(ts[0])|, ts[1..]);
    }
  }

  lemma {:induction false} TokKindIsReal(t: Tok)
    requires GoodTok(t)
    ensures TokKind(t) != EndOfStream && TokKind(t) != CommentToken
  {
  }

  lemma {:induction false} Bracketed(opening: Tok, body: seq<Tok>, closing: Tok, us: seq<Tok>)
    ensures [opening] + body + [closing] + us == [opening] + (body + ([closing] + us))
  {
  }

  // ---- Values ----

  /** The tokens of a value are read as the normal form of the value, and the reader stops in front of the rest of
      the stream. */
  lemma {:induction false} ReadsValue(env: Env, v: Value, show: real -> seq<byte>, p: nat, us: seq<Tok>, old_: Value)
    returns (next: nat)
    requires Proper(v) && Readable(v) && EndsNumeral(us)
    requires p <= |env.doc| && Spaced(env.doc[p..], Tokens(v, show) + us)
    ensures ReadValue(env, p, old_) == Outcome(true, Normal(v), next, []) && next <= |env.doc|
    ensures Spaced(env.doc[next..], us)
    decreases v, 4
  {
    if v.Arr? {
      next := ReadsArray(env, v, show, p, us, old_);
    } else if v.Obj? {
      next := ReadsObject(env, v, show, p, us, old_);
    } else {
      next := ReadsScalar(env, v, show, p, us, old_);
    }
  }

  lemma {:induction false} ReadsScalar(env: Env, v: Value, show: real -> seq<byte>, p: nat, us: seq<Tok>, old_: Value)
    returns (next: nat)
    requires Proper(v) && Readable(v) && EndsNumeral(us) && !v.Arr? && !v.Obj?
    requires p <= |env.doc| && Spaced(env.doc[p..], Tokens(v, show) + us)
    ensures ReadValue(env, p, old_) == Outcome(true, Normal(v), next, []) && next <= |env.doc|
    ensures Spaced(env.doc[next..], us)
  {
    hide ReadToken, Spaced, TokText, GoodTok, SkipComments, ReadItems, ReadMembers, ReadScalar, Normal, Readable, SkipSpaces;
    var tok := Tokens(v, show)[0];
    assert Tokens(v, show) == [tok];
    ScalarGood(v, show);
    var start := TakeToken(env.doc, p, tok, us);
    next := start + |TokText(tok)|;
    assert ValueToken(env, p) == Token(TokKind(tok), start, next);
    TokenIsScalar(env, v, show, start, old_);
  }

  lemma {:induction false} ScalarGood(v: Value, show: real -> seq<byte>)
    requires Readable(v) && !v.Arr? && !v.Obj?
    ensures GoodTok(Tokens(v, show)[0]) && !Tokens(v, show)[0].Punct?
  {
    if v.Int? { NumeralCharacters(v.i); }
    if v.UInt? { NumeralCharacters(v.u); }
  }

  /** The token of a scalar is read as the scalar. */
  lemma {:induction false} TokenIsScalar(env: Env, v: Value, show: real -> seq<byte>, start: nat, old_: Value)
    requires Proper(v) && Readable(v) && !v.Arr? && !v.Obj?
    requires var t := Tokens(v, show)[0];
             start + |TokText(t)| <= |env.doc| && env.doc[start..start + |TokText(t)|] == TokText(t) &&
             (t.Text? ==> DecodeString(env.doc, Token(StringToken, start, start + |TokText(t)|)) == Decoded(t.s))
    ensures var t := Tokens(v, show)[0];
            ReadScalar(env, Token(TokKind(t), start, start + |TokText(t)|), old_) ==
            Outcome(true, Normal(v), start + |TokText(t)|, [])
  {
    hide DecodeString, Integer, SignedDecimal, WriterText;
    if v.Int? { NumeralRoundTrip(v.i); }
    if v.UInt? { NumeralRoundTrip(v.u); }
  }

  lemma {:induction false} ReadsArray(env: Env, v: Value, show: real -> seq<byte>, p: nat, us: seq<Tok>, old_: Value)
    returns (next: nat)
    requires Proper(v) && Readable(v) && EndsNumeral(us) && v.Arr?
    requires p <= |env.doc| && Spaced(env.doc[p..], Tokens(v, show) + us)
    ensures ReadValue(env, p, old_) == Outcome(true, Normal(v), next, []) && next <= |env.doc|
    ensures Spaced(env.doc[next..], us)
    decreases v, 3
  {
    hide Spaced, ReadToken, ItemTokens, ReadArray, Proper, Readable, NormalItems, EndsNumeral, ArraySize;
    var closing := [Punct(93)] + us;
    assert v == Arr(v.entries);
    var body := if ArraySize(v.entries) == 0 then [] else ItemTokens(v, 0, show);
    Bracketed(Punct(91), body, Punct(93), us);
    var q := ArrayOpens(env, p, body + closing, old_);
    if ArraySize(v.entries) == 0 {
      assert body + closing == closing;
      next := ReadsNothing(env, q, us);
      assert Normal(v) == Arr([]);
    } else {
      CommaSeparated(v, 0, show);
      next := ReadsSeparated(env, v, show, Comma, q, us);
    }
  }

  /** The opening bracket of an array. */
  lemma {:induction false} ArrayOpens(env: Env, p: nat, ts: seq<Tok>, old_: Value) returns (next: nat)
    requires p <= |env.doc| && Spaced(env.doc[p..], [Punct(91)] + ts)
    ensures p <= next <= |env.doc| && ReadValue(env, p, old_) == ReadArray(env, next) && Spaced(env.doc[next..], ts)
  {
    hide Spaced, ReadToken, ReadArray, SkipComments;
    var start := SeparatorReads(env.doc, p, Punct(91), ts);
    next := start + 1;
    assert ValueToken(env, p) == Token(ArrayBegin, start, next);
  }

  /** The closing bracket right behind it. */
  lemma {:induction false} ReadsNothing(env: Env, p: nat, us: seq<Tok>) returns (next: nat)
    requires p <= |env.doc| && Spaced(env.doc[p..], [Punct(93)] + us)
    ensures ReadArray(env, p) == Outcome(true, Arr([]), next, []) && next <= |env.doc|
    ensures Spaced(env.doc[next..], us)
  {
    hide Spaced, ReadToken, SkipSpaces, ReadItems;
    var q := TakeToken(env.doc, p, Punct(93), us);
    assert env.doc[q..q + 1][0] == 93;
    BracketAt(env.doc, q);
    next := q + 1;
  }

  /** The elements of an array, whatever punctuation stands between them, and the closing bracket. */
  lemma {:induction false} ReadsSeparated(env: Env, v: Value, show: real -> seq<byte>, sep: nat -> Tok, p: nat, us: seq<Tok>)
    returns (next: nat)
    requires Proper(v) && Readable(v) && v.Arr? && ArraySize(v.entries) > 0 && Separators(sep)
    requires p <= |env.doc| && Spaced(env.doc[p..], SeparatedTokens(v, 0, show, sep) + ([Punct(93)] + us))
    ensures ReadArray(env, p) == Outcome(true, Normal(v), next, []) && next <= |env.doc|
    ensures Spaced(env.doc[next..], us)
    decreases v, 2
  {
    hide Spaced, ReadToken, SeparatedTokens, ReadItems, Proper, Readable, SkipSpaces;
    var q := SpacedFromToken(env, v, show, sep, p, [Punct(93)] + us);
    next := ReadsItems(env, v, show, sep, 0, q, us);
  }

  // ---- What separates the elements of an array ----

  /** A punctuation other than the closing bracket. */
  ghost predicate Separators(sep: nat -> Tok) { forall i: nat :: sep(i).Punct? && GoodTok(sep(i)) && sep(i).c != 93 }

  function Comma(i: nat): Tok { COMMA }

  /** The tokens of the elements from index `i` on, with `sep(k)` behind element `k`. */
  function SeparatedTokens(v: Value, i: nat, show: real -> seq<byte>, sep: nat -> Tok): seq<Tok>
    requires v.Arr? && i < ArraySize(v.entries)
    decreases ArraySize(v.entries) - i
  {
    if i + 1 == ArraySize(v.entries) then ElementTokens(v, i, show)
    else ElementTokens(v, i, show) + [sep(i)] + SeparatedTokens(v, i + 1, show, sep)
  }

  lemma {:induction false} SeparatedStep(v: Value, i: nat, show: real -> seq<byte>, sep: nat -> Tok, closing: seq<Tok>)
    requires v.Arr? && i < ArraySize(v.entries)
    ensures SeparatedTokens(v, i, show, sep) + closing ==
            if i + 1 == ArraySize(v.entries) then ElementTokens(v, i, show) + closing
            else ElementTokens(v, i, show) + ([sep(i)] + (SeparatedTokens(v, i + 1, show, sep) + closing))
  {
    hide ElementTokens;
  }

  lemma {:induction false} CommaSeparated(v: Value, i: nat, show: real -> seq<byte>)
    requires v.Arr? && i < ArraySize(v.entries)
    ensures Separators(Comma) && SeparatedTokens(v, i, show, Comma) == ItemTokens(v, i, show)
    decreases ArraySize(v.entries) - i
  {
    hide ElementTokens;
    if i + 1 < ArraySize(v.entries) { CommaSeparated(v, i + 1, show); }
  }

  lemma {:induction false} BracketAt(d: seq<byte>, q: nat)
    requires q < |d| && d[q] == 93
    ensures ReadToken(d, q) == Token(ArrayEnd, q, q + 1)
  {
  }

  /** Skipping white space leads to the first token of the stream, and the stream still stands there. */
  lemma {:induction false} SpacedAtToken(d: seq<byte>, p: nat, t: Tok, ts: seq<Tok>) returns (q: nat)
    requires p <= |d| && Spaced(d[p..], [t] + ts)
    requires TokText(t) != [] && !IsSpace(TokText(t)[0])
    ensures q == SkipSpaces(d, p) && q < |d| && d[q] == TokText(t)[0] && Spaced(d[q..], [t] + ts)
  {
    hide TokText, Spaced, SkipSpaces, IsSpace;
    q := TokenStands(d, p, t, ts);
    var len := |TokText(t)|;
    assert d[q] == d[q..q + len][0];
    SkipBlank(d, p, q - p);
    Slices(d, q, 0, len);
    assert d[q..][..0] == [];
    assert Begins(d[q..], 0, t);
    SpacedBegins(d[q..], 0, t, ts);
  }

  /** The first element is not a closing bracket, and the tokens still stand behind the white space. */
  lemma {:induction false} SpacedFromToken(env: Env, v: Value, show: real -> seq<byte>, sep: nat -> Tok, p: nat,
                                           closing: seq<Tok>)
    returns (q: nat)
    requires v.Arr? && ArraySize(v.entries) > 0 && Readable(v)
    requires p <= |env.doc| && Spaced(env.doc[p..], SeparatedTokens(v, 0, show, sep) + closing)
    ensures q == SkipSpaces(env.doc, p) && q < |env.doc| && At(env.doc, q) != 93
    ensures Spaced(env.doc[q..], SeparatedTokens(v, 0, show, sep) + closing)
  {
    hide Spaced, SkipSpaces, TokText, IsSpace, SeparatedTokens, Readable, ElementTokens;
    var ts := SeparatedTokens(v, 0, show, sep) + closing;
    FirstOfElement(v, 0, show);
    ItemsStart(v, show, sep);
    FirstCharacter(ts[0]);
    assert [ts[0]] + ts[1..] == ts;
    q := SpacedAtToken(env.doc, p, ts[0], ts[1..]);
  }

  lemma {:induction false} ItemsStart(v: Value, show: real -> seq<byte>, sep: nat -> Tok)
    requires v.Arr? && ArraySize(v.entries) > 0
    ensures SeparatedTokens(v, 0, show, sep) != []
    ensures SeparatedTokens(v, 0, show, sep)[0] == ElementTokens(v, 0, show)[0]
  {
  }

  predicate StartsValue(t: Tok) { GoodTok(t) && (t.Punct? ==> t.c == 91 || t.c == 123) }

  lemma {:induction false} FirstCharacter(t: Tok)
    requires StartsValue(t)
    ensures |TokText(t)| > 0 && TokText(t)[0] != 93 && !IsSpace(TokText(t)[0])
  {
  }

  lemma {:induction false} FirstOfValue(v: Value, show: real -> seq<byte>)
    requires Readable(v)
    ensures StartsValue(Tokens(v, show)[0])
  {
    if v.Int? { NumeralCharacters(v.i); }
    if v.UInt? { NumeralCharacters(v.u); }
  }

  lemma {:induction false} FirstOfElement(v: Value, i: nat, show: real -> seq<byte>)
    requires v.Arr? && Readable(v)
    ensures StartsValue(ElementTokens(v, i, show)[0])
  {
    if Has(v.entries, Index(i)) { FirstOfValue(v.entries[LowerBound(v.entries, Index(i))].value, show); }
  }

  /** One element, present or a hole. */
  lemma {:induction false} ReadsElement(env: Env, v: Value, show: real -> seq<byte>, i: nat, p: nat, us: seq<Tok>,
                                        old_: Value)
    returns (next: nat)
    requires Proper(v) && Readable(v) && v.Arr? && EndsNumeral(us)
    requires p <= |env.doc| && Spaced(env.doc[p..], ElementTokens(v, i, show) + us)
    ensures ReadValue(env, p, old_) == Outcome(true, NormalElement(v, i), next, []) && next <= |env.doc|
    ensures Spaced(env.doc[next..], us)
    decreases v, 0
  {
    hide ReadValue, Spaced;
    if Has(v.entries, Index(i)) {
      var k := LowerBound(v.entries, Index(i));
      assert Proper(v.entries[k].value) && Readable(v.entries[k].value);
      next := ReadsValue(env, v.entries[k].value, show, p, us, old_);
    } else {
      next := ReadsScalar(env, Null, show, p, us, old_);
    }
  }

  lemma {:induction false} ReadsItems(env: Env, v: Value, show: real -> seq<byte>, sep: nat -> Tok, i: nat, p: nat,
                                      us: seq<Tok>)
    returns (next: nat)
    requires Proper(v) && Readable(v) && v.Arr? && i < ArraySize(v.entries) && Separators(sep)
    requires p <= |env.doc| && Spaced(env.doc[p..], SeparatedTokens(v, i, show, sep) + ([Punct(93)] + us))
    ensures ReadItems(env, p, NormalItems(v, i), i) ==
            Outcome(true, Arr(NormalItems(v, ArraySize(v.entries))), next, []) && next <= |env.doc|
    ensures Spaced(env.doc[next..], us)
    decreases v, 1, ArraySize(v.entries) - i
  {
    hide Spaced, ReadValue, Proper, Readable, ElementTokens, NormalElement, SkipComments, ReadToken, Assign, Get;
    hide SeparatedTokens, NormalItems, ArraySize;
    var closing := [Punct(93)] + us;
    var last := i + 1 == ArraySize(v.entries);
    var behind := if last then us else SeparatedTokens(v, i + 1, show, sep) + closing;
    var t := if last then Punct(93) else sep(i);
    SeparatedStep(v, i, show, sep, closing);
    assert last ==> [t] + behind == closing;
    var m := NormalItems(v, i);
    var q := ReadsElement(env, v, show, i, p, [t] + behind, Get(m, Index(i)));
    AssignNextItem(v, i);
    var start := SeparatorReads(env.doc, q, t, behind);
    if last {
      next := start + 1;
    } else {
      next := ReadsItems(env, v, show, sep, i + 1, start + 1, us);
    }
  }

  /** The punctuation behind an element or a member. */
  lemma {:induction false} SeparatorReads(d: seq<byte>, p: nat, t: Tok, ts: seq<Tok>) returns (start: nat)
    requires p <= |d| && Spaced(d[p..], [t] + ts) && t.Punct? && GoodTok(t)
    ensures start < |d| && ReadToken(d, p) == Token(TokKind(t), start, start + 1)
    ensures SkipComments(d, ReadToken(d, p)) == Token(TokKind(t), start, start + 1)
    ensures Spaced(d[start + 1..], ts)
  {
    hide ReadToken, Spaced;
    start := TakeToken(d, p, t, ts);
  }

  lemma {:induction false} AssignNextItem(v: Value, i: nat)
    requires v.Arr?
    ensures Assign(NormalItems(v, i), Index(i), NormalElement(v, i)) == NormalItems(v, i + 1)
  {
    hide NormalElement;
    AssignAtEnd(NormalItems(v, i), Index(i), NormalElement(v, i));
  }

  lemma {:induction false} ReadsObject(env: Env, v: Value, show: real -> seq<byte>, p: nat, us: seq<Tok>, old_: Value)
    returns (next: nat)
    requires Proper(v) && Readable(v) && EndsNumeral(us) && v.Obj?
    requires p <= |env.doc| && Spaced(env.doc[p..], Tokens(v, show) + us)
    ensures ReadValue(env, p, old_) == Outcome(true, Normal(v), next, []) && next <= |env.doc|
    ensures Spaced(env.doc[next..], us)
    decreases v, 2
  {
    hide Spaced, ReadToken, MemberTokens, ReadMembers, Proper, Readable, NormalMembers, EndsNumeral;
    var closing := [Punct(125)] + us;
    assert v == Obj(v.entries);
    var body := if v.entries == [] then [] else MemberTokens(v, 0, show);
    Bracketed(Punct(123), body, Punct(125), us);
    var q := ObjectOpens(env, p, body + closing, old_);
    if v.entries == [] {
      assert body + closing == closing;
      next := BraceReads(env, [], q, us, true);
      NoMembers(v);
    } else {
      NoMembers(v);
      next := ReadsMembers(env, v, show, 0, q, us, true);
    }
  }

  lemma {:induction false} NoMembers(v: Value)
    requires v.Obj?
    ensures NormalMembers(v, 0) == []
  {
  }

  /** The opening brace of an object. */
  lemma {:induction false} ObjectOpens(env: Env, p: nat, ts: seq<Tok>, old_: Value) returns (next: nat)
    requires p <= |env.doc| && Spaced(env.doc[p..], [Punct(123)] + ts)
    ensures p <= next <= |env.doc| && ReadValue(env, p, old_) == ReadMembers(env, next, [], true)
    ensures Spaced(env.doc[next..], ts)
  {
    hide Spaced, ReadToken, ReadMembers, SkipComments;
    var start := SeparatorReads(env.doc, p, Punct(123), ts);
    next := start + 1;
    assert ValueToken(env, p) == Token(ObjectBegin, start, next);
  }

  /** A closing brace where a member could begin. */
  lemma {:induction false} BraceReads(env: Env, m: seq<Entry>, p: nat, us: seq<Tok>, unnamed: bool) returns (next: nat)
    requires p <= |env.doc| && Spaced(env.doc[p..], [Punct(125)] + us)
    ensures next <= |env.doc| && Spaced(env.doc[next..], us)
    ensures var r := ReadMembers(env, p, m, unnamed);
            if unnamed then r == Outcome(true, Obj(m), next, [])
            else !r.ok && r.value == Obj(m) && |r.errors| == 1 && r.errors[0].message == MissingBraceOrName
  {
    hide Spaced, ReadToken, SkipComments, Recovered;
    var start := SeparatorReads(env.doc, p, Punct(125), us);
    next := start + 1;
  }

  /** A name and its colon. */
  lemma {:induction false} NameReads(env: Env, m: seq<Entry>, name: seq<byte>, p: nat, ts: seq<Tok>, unnamed: bool)
    returns (afterName: nat, next: nat)
    requires p <= |env.doc| && Spaced(env.doc[p..], [Text(name), COLON] + ts)
    ensures afterName <= |env.doc| && afterName < next <= |env.doc|
    ensures ReadMembers(env, p, m, unnamed) == ReadMember(env, afterName, m, name)
    ensures ReadToken(env.doc, afterName) == Token(MemberSeparator, next - 1, next)
    ensures Spaced(env.doc[next..], ts)
  {
    hide Spaced, DecodeString, ReadToken, TokText, ReadMember;
    assert [Text(name), COLON] + ts == [Text(name)] + ([COLON] + ts);
    var nameAt := TakeToken(env.doc, p, Text(name), [COLON] + ts);
    afterName := nameAt + |TokText(Text(name))|;
    var colonAt := SeparatorReads(env.doc, afterName, COLON, ts);
    next := colonAt + 1;
  }

  /** The value of a member, once it reads without errors. */
  lemma {:induction false} MemberReads(env: Env, m: seq<Entry>, name: seq<byte>, p: nat, colonEnd: nat, value: Value,
                                       q: nat)
    requires p <= |env.doc| && p < colonEnd <= |env.doc|
    requires ReadToken(env.doc, p) == Token(MemberSeparator, colonEnd - 1, colonEnd)
    requires ReadValue(env, colonEnd, Get(m, Name(CStr(name)))) == Outcome(true, value, q, [])
    ensures q <= |env.doc|
    ensures ReadMember(env, p, m, name) == ReadMemberEnd(env, q, Assign(m, Name(CStr(name)), value), name == [])
  {
    hide ReadToken, ReadValue, Assign, Get, ReadMemberEnd, Recovered;
  }

  /** The punctuation behind a member. */
  lemma {:induction false} MemberEnds(env: Env, m: seq<Entry>, q: nat, t: Tok, ts: seq<Tok>, unnamed: bool)
    returns (next: nat)
    requires q <= |env.doc| && Spaced(env.doc[q..], [t] + ts) && (t == COMMA || t == Punct(125))
    ensures next <= |env.doc| && Spaced(env.doc[next..], ts)
    ensures ReadMemberEnd(env, q, m, unnamed) ==
            if t == COMMA then ReadMembers(env, next, m, unnamed) else Outcome(true, Obj(m), next, [])
  {
    hide ReadToken, SkipComments, ReadMembers, Spaced, Recovered;
    var start := SeparatorReads(env.doc, q, t, ts);
    next := start + 1;
  }

  lemma {:induction false} ReadsMembers(env: Env, v: Value, show: real -> seq<byte>, k: nat, p: nat, us: seq<Tok>,
                                        unnamed: bool)
    returns (next: nat)
    requires Proper(v) && Readable(v) && v.Obj? && k < |v.entries|
    requires p <= |env.doc| && Spaced(env.doc[p..], MemberTokens(v, k, show) + ([Punct(125)] + us))
    ensures ReadMembers(env, p, NormalMembers(v, k), unnamed) ==
            Outcome(true, Obj(NormalMembers(v, |v.entries|)), next, []) && next <= |env.doc|
    ensures Spaced(env.doc[next..], us)
    decreases v, 1, |v.entries| - k
  {
    hide Spaced, ReadValue, ReadMembers, ReadMember, ReadMemberEnd, Tokens, Normal, ReadToken, Assign, Get, Sorted;
    var e := v.entries[k];
    var closing := [Punct(125)] + us;
    var last := k + 1 == |v.entries|;
    var behind := if last then us else MemberTokens(v, k + 1, show) + closing;
    var t := if last then Punct(125) else COMMA;
    var value := Tokens(e.value, show) + ([t] + behind);
    assert MemberTokens(v, k, show) + closing == [Text(e.key.name), COLON] + value;
    var m, m' := NormalMembers(v, k), NormalMembers(v, k + 1);
    var afterName, colonEnd := NameReads(env, m, e.key.name, p, value, unnamed);
    var q := ReadsValue(env, e.value, show, colonEnd, [t] + behind, Get(m, e.key));
    AssignNextMember(v, k);
    MemberReads(env, m, e.key.name, afterName, colonEnd, Normal(e.value), q);
    next := MemberEnds(env, m', q, t, behind, e.key.name == []);
    if !last {
      next := ReadsMembers(env, v, show, k + 1, next, us, e.key.name == []);
    }
  }

  lemma {:induction false} AssignNextMember(v: Value, k: nat)
    requires v.Obj? && k < |v.entries| && Sorted(v.entries)
    ensures Assign(NormalMembers(v, k), v.entries[k].key, Normal(v.entries[k].value)) == NormalMembers(v, k + 1)
  {
    hide Normal, Before;
    AssignAtEnd(NormalMembers(v, k), v.entries[k].key, Normal(v.entries[k].value));
  }

  /** Main result: every value whose integers are in the exact range and that has no reals is read back from its
      tokens, whatever white space is around them, without an error and up to its normal form; with a strict root
      this is counted a success exactly when the value is an array or an object. */
  lemma {:induction false} RoundTrip(env: Env, strictRoot: bool, root: Value, v: Value, show: real -> seq<byte>)
    requires Proper(v) && Readable(v) && Spaced(env.doc, Tokens(v, show))
    ensures var r := Parse(env, strictRoot, root);
            r.value == Normal(v) && r.next == |env.doc| &&
            (r.ok <==> !strictRoot || v.Arr? || v.Obj?) && (r.ok ==> r.errors == [])
  {
    hide ReadValue, Tokens, Spaced, ReadToken;
    assert env.doc[0..] == env.doc && Tokens(v, show) + [] == Tokens(v, show);
    var next := ReadsValue(env, v, show, 0, [], root);
    SpacedEnd(env.doc, next);
  }

  // ---- Two printings of one value ----

  /** Printing a real gives a numeral. */
  ghost predicate ShowsNumerals(show: real -> seq<byte>) { forall r: real :: GoodTok(Numeral(show(r))) }

  lemma {:induction false} GoodStreamBefore(t: Tok, ts: seq<Tok>)
    requires GoodTok(t) && MayFollow(t, ts) && GoodStream(ts)
    ensures GoodStream([t] + ts)
  {
    hide GoodTok;
    var us := [t] + ts;
    forall i | 0 <= i < |us| ensures GoodTok(us[i]) && MayFollow(us[i], us[i + 1..]) {
      if i > 0 { assert us[i] == ts[i - 1] && us[i + 1..] == ts[i - 1 + 1..]; } else { assert us[1..] == ts; }
    }
  }

  /** The tokens of a value are a good stream in front of any stream that begins with a punctuation. */
  lemma {:induction false} TokensStream(v: Value, show: real -> seq<byte>, us: seq<Tok>)
    requires ShowsNumerals(show) && GoodStream(us) && EndsNumeral(us)
    ensures GoodStream(Tokens(v, show) + us)
    decreases v, 3
  {
    hide GoodTok, GoodStream, ShowsNumerals, ItemTokens, MemberTokens, ArraySize;
    if v.Arr? {
      GoodPunct(93);
      GoodStreamBefore(Punct(93), us);
      var closing := [Punct(93)] + us;
      var body := if ArraySize(v.entries) == 0 then [] else ItemTokens(v, 0, show);
      if ArraySize(v.entries) > 0 { ItemsStream(v, 0, show, closing); } else { assert body + closing == closing; }
      Opened(91, body, closing);
      Bracketed(Punct(91), body, Punct(93), us);
    } else if v.Obj? {
      GoodPunct(125);
      GoodStreamBefore(Punct(125), us);
      var closing := [Punct(125)] + us;
      var body := if v.entries == [] then [] else MemberTokens(v, 0, show);
      if v.entries != [] { MembersStream(v, 0, show, closing); } else { assert body + closing == closing; }
      Opened(123, body, closing);
      Bracketed(Punct(123), body, Punct(125), us);
    } else {
      ScalarStream(v, show, us);
    }
  }

  lemma {:induction false} Opened(c: byte, body: seq<Tok>, closing: seq<Tok>)
    requires IsPunct(c) && GoodStream(body + closing)
    ensures GoodStream([Punct(c)] + (body + closing))
  {
    hide GoodStream;
    GoodPunct(c);
    GoodStreamBefore(Punct(c), body + closing);
  }

  lemma {:induction false} ScalarStream(v: Value, show: real -> seq<byte>, us: seq<Tok>)
    requires ShowsNumerals(show) && GoodStream(us) && EndsNumeral(us) && !v.Arr? && !v.Obj?
    ensures GoodStream(Tokens(v, show) + us)
  {
    hide GoodTok, GoodStream, ShowsNumerals;
    var t := Tokens(v, show)[0];
    ScalarTok(v, show);
    GoodStreamBefore(t, us);
    assert Tokens(v, show) == [t];
  }

  lemma {:induction false} GoodPunct(c: byte)
    requires IsPunct(c)
    ensures GoodTok(Punct(c))
  {
  }

  lemma {:induction false} ScalarTok(v: Value, show: real -> seq<byte>)
    requires ShowsNumerals(show) && !v.Arr? && !v.Obj?
    ensures GoodTok(Tokens(v, show)[0])
  {
    if v.Int? { NumeralCharacters(v.i); }
    if v.UInt? { NumeralCharacters(v.u); }
  }

  lemma {:induction false} ItemsStream(v: Value, i: nat, show: real -> seq<byte>, us: seq<Tok>)
    requires v.Arr? && i < ArraySize(v.entries)
    requires ShowsNumerals(show) && GoodStream(us) && EndsNumeral(us)
    ensures GoodStream(ItemTokens(v, i, show) + us)
    decreases v, 1, ArraySize(v.entries) - i
  {
    hide GoodTok, GoodStream, ShowsNumerals, Tokens;
    var rest := us;
    if i + 1 < ArraySize(v.entries) {
      ItemsStream(v, i + 1, show, us);
      GoodPunct(44);
      rest := [COMMA] + (ItemTokens(v, i + 1, show) + us);
      GoodStreamBefore(COMMA, ItemTokens(v, i + 1, show) + us);
    }
    assert ItemTokens(v, i, show) + us == ElementTokens(v, i, show) + rest;
    if Has(v.entries, Index(i)) {
      TokensStream(v.entries[LowerBound(v.entries, Index(i))].value, show, rest);
    } else {
      GoodStreamBefore(Word(NullToken), rest) by { assert GoodTok(Word(NullToken)) by { ScalarTok(Null, show); NullTokens(show); } }
    }
  }

  lemma {:induction false} NullTokens(show: real -> seq<byte>)
    ensures Tokens(Null, show) == [Word(NullToken)]
  {
  }

  lemma {:induction false} MembersStream(v: Value, k: nat, show: real -> seq<byte>, us: seq<Tok>)
    requires v.Obj? && k < |v.entries|
    requires ShowsNumerals(show) && GoodStream(us) && EndsNumeral(us)
    ensures GoodStream(MemberTokens(v, k, show) + us)
    decreases v, 1, |v.entries| - k
  {
    hide GoodTok, GoodStream, ShowsNumerals, Tokens;
    var rest := us;
    if k + 1 < |v.entries| {
      MembersStream(v, k + 1, show, us);
      GoodPunct(44);
      rest := [COMMA] + (MemberTokens(v, k + 1, show) + us);
      GoodStreamBefore(COMMA, MemberTokens(v, k + 1, show) + us);
    }
    var e := v.entries[k];
    var value := Tokens(e.value, show) + rest;
    TokensStream(e.value, show, rest);
    GoodPunct(58);
    GoodStreamBefore(COLON, value);
    assert GoodTok(Text(NameOf(e))) by { GoodText(NameOf(e)); }
    GoodStreamBefore(Text(NameOf(e)), [COLON] + value);
    assert MemberTokens(v, k, show) + us == [Text(NameOf(e))] + ([COLON] + value);
  }

  lemma {:induction false} GoodText(s: seq<byte>)
    ensures GoodTok(Text(s))
  {
  }

  /** Two printings of a value that differ only in white space are the same token stream, with or without reals; and
      a readable value is read back from both as the same value. */
  lemma {:induction false} PrintingsAgree(a: Env, b: Env, v: Value, show: real -> seq<byte>, strictRoot: bool, root: Value)
    requires ShowsNumerals(show) && Spaced(a.doc, Tokens(v, show)) && Spaced(b.doc, Tokens(v, show))
    ensures Lexemes(a.doc, 0) == Lexemes(b.doc, 0) == StreamLexemes(Tokens(v, show))
    ensures Proper(v) && Readable(v) ==>
      Parse(a, strictRoot, root).value == Parse(b, strictRoot, root).value &&
      Parse(a, strictRoot, root).ok == Parse(b, strictRoot, root).ok
  {
    hide Tokens, Spaced, GoodTok, ShowsNumerals, Parse, Lexemes, StreamLexemes;
    TokensStream(v, show, []);
    assert Tokens(v, show) + [] == Tokens(v, show);
    assert a.doc[0..] == a.doc && b.doc[0..] == b.doc;
    TokenizerFindsStream(a.doc, 0, Tokens(v, show));
    TokenizerFindsStream(b.doc, 0, Tokens(v, show));
    if Proper(v) && Readable(v) {
      RoundTrip(a, strictRoot, root, v, show);
      RoundTrip(b, strictRoot, root, v, show);
    }
  }
}
