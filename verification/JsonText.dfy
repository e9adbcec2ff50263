/** The texts of JSON values: escaped strings, and token streams with white space between the tokens. */
module JsonText {
  import opened Bytes
  import opened JsonUnicode
  import opened JsonValue
  import opened JsonParser

  // ---- Escapes ----

  /** A piece of the text of a string: a character, a short escape, a code unit, or a surrogate pair. */
  datatype Unit = Plain(c: byte) | Short(e: byte) | Escaped(h: seq<byte>) | Pair(high: seq<byte>, low: seq<byte>)

  predicate HighSurrogate(v: nat) { 0xD800 <= v <= 0xDBFF }

  predicate GoodUnit(u: Unit) {
    match u
    case Plain(c) => c != QUOTE && c != BACKSLASH
    case Short(e) => ShortEscape(e) >= 0
    case Escaped(h) => Hex4(h) && !HighSurrogate(Hex4Value(h))
    case Pair(high, low) => Hex4(high) && Hex4(low) && HighSurrogate(Hex4Value(high))
  }

  function UnitText(u: Unit): (t: seq<byte>)
    ensures |t| > 0
  {
    match u
    case Plain(c) => [c]
    case Short(e) => [BACKSLASH, e]
    case Escaped(h) => [BACKSLASH, 117] + h
    case Pair(high, low) => [BACKSLASH, 117] + high + [BACKSLASH, 117] + low
  }

  function UnitMeaning(u: Unit): seq<byte>
    requires GoodUnit(u)
  {
    match u
    case Plain(c) => [c]
    case Short(e) => [ShortEscape(e) as byte]
    case Escaped(h) => CodePointToUtf8(Hex4Value(h))
    case Pair(high, low) => CodePointToUtf8(CombinePair(Hex4Value(high), Hex4Value(low)))
  }

  function UnitsText(us: seq<Unit>): seq<byte> {
    if us == [] then [] else UnitText(us[0]) + UnitsText(us[1..])
  }

  ghost predicate GoodUnits(us: seq<Unit>) { forall i :: 0 <= i < |us| ==> GoodUnit(us[i]) }

  function UnitsMeaning(us: seq<Unit>): seq<byte>
    requires GoodUnits(us)
  {
    if us == [] then [] else UnitMeaning(us[0]) + UnitsMeaning(us[1..])
  }

  /** The letter of the short escape for a character that has one; -1 for the others. */
  function ShortOf(c: byte): (e: int)
    ensures -1 <= e < 256
    ensures if e >= 0 then ShortEscape(e as byte) == c else c != QUOTE && c != BACKSLASH
  {
    if c == QUOTE then QUOTE
    else if c == BACKSLASH then BACKSLASH
    else if c == 8 then 98
    else if c == 12 then 102
    else if c == 10 then 110
    else if c == 13 then 114
    else if c == 9 then 116
    else -1
  }

  predicate IsControl(c: byte) { 0 < c <= 0x1F }

  /** The cases of valueToQuotedString. */
  function WriterUnit(c: byte): Unit {
    if ShortOf(c) >= 0 then Short(ShortOf(c) as byte)
    else if IsControl(c) then Escaped(UpperHex4(c))
    else Plain(c)
  }

  /** The cases of escapeJsonString. */
  function KickstartUnit(c: byte): Unit {
    if ShortOf(c) >= 0 then Short(ShortOf(c) as byte) else Plain(c)
  }

  function UnitsOf(escape: byte -> Unit, s: seq<byte>): (us: seq<Unit>)
    ensures |us| == |s| && forall i :: 0 <= i < |s| ==> us[i] == escape(s[i])
  {
    if s == [] then [] else [escape(s[0])] + UnitsOf(escape, s[1..])
  }

  ghost predicate Escapes(escape: byte -> Unit) {
    forall c: byte :: GoodUnit(escape(c)) && UnitMeaning(escape(c)) == [c]
  }

  lemma {:induction false} WriterEscapes()
    ensures Escapes(WriterUnit)
  {
    forall c: byte ensures GoodUnit(WriterUnit(c)) && UnitMeaning(WriterUnit(c)) == [c] {
      if IsControl(c) { UpperHex4Value(c); }
    }
  }

  lemma {:induction false} KickstartEscapes()
    ensures Escapes(KickstartUnit)
  {
  }

  lemma {:induction false} UnitsOfMeaning(escape: byte -> Unit, s: seq<byte>)
    requires Escapes(escape)
    ensures GoodUnits(UnitsOf(escape, s)) && UnitsMeaning(UnitsOf(escape, s)) == s
  {
    hide GoodUnit, UnitMeaning;
    if s != [] {
      UnitsOfMeaning(escape, s[1..]);
      assert UnitsOf(escape, s)[1..] == UnitsOf(escape, s[1..]);
      assert s == [s[0]] + s[1..];
    }
  }

  /** The text that the writers make of a string. */
  function WriterText(s: seq<byte>): seq<byte> { UnitsText(UnitsOf(WriterUnit, s)) }

  function Quoted(s: seq<byte>): seq<byte> { [QUOTE] + WriterText(s) + [QUOTE] }

  function KickstartText(s: seq<byte>): seq<byte> { UnitsText(UnitsOf(KickstartUnit, s)) }

  lemma {:induction false} UnitsTextAppend(us: seq<Unit>, u: Unit)
    ensures UnitsText(us + [u]) == UnitsText(us) + UnitText(u)
  {
    hide UnitText;
    if us == [] {
      assert [u][1..] == [];
    } else {
      UnitsTextAppend(us[1..], u);
      assert (us + [u])[1..] == us[1..] + [u];
    }
  }

  lemma {:induction false} UnitsOfAppend(escape: byte -> Unit, s: seq<byte>, c: byte)
    ensures UnitsOf(escape, s + [c]) == UnitsOf(escape, s) + [escape(c)]
    ensures UnitsText(UnitsOf(escape, s + [c])) == UnitsText(UnitsOf(escape, s)) + UnitText(escape(c))
  {
    assert UnitsOf(escape, s + [c]) == UnitsOf(escape, s) + [escape(c)];
    UnitsTextAppend(UnitsOf(escape, s), escape(c));
  }

  // ---- Token streams ----

  datatype Tok = Punct(c: byte) | Word(kind: TokenType) | Numeral(text: seq<byte>) | Text(s: seq<byte>)

  const COMMA := Punct(44)
  const COLON := Punct(58)

  const NULL_WORD: seq<byte> := [110, 117, 108, 108]
  const TRUE_WORD: seq<byte> := [116, 114, 117, 101]
  const FALSE_WORD: seq<byte> := [102, 97, 108, 115, 101]

  function TokText(t: Tok): seq<byte> {
    match t
    case Punct(c) => [c]
    case Word(kind) =>
      if kind == NullToken then NULL_WORD else if kind == TrueToken then TRUE_WORD else FALSE_WORD
    case Numeral(text) => text
    case Text(s) => Quoted(s)
  }

  predicate Blank(s: seq<byte>) { forall i :: 0 <= i < |s| ==> IsSpace(s[i]) }

  ghost predicate Begins(text: seq<byte>, n: nat, t: Tok) {
    n + |TokText(t)| <= |text| && Blank(text[..n]) && text[n..n + |TokText(t)|] == TokText(t)
  }

  /** The text consists of the tokens, with nothing but white space around them. */
  ghost predicate Spaced(text: seq<byte>, ts: seq<Tok>)
    decreases |ts|
  {
    if ts == [] then Blank(text)
    else exists n: nat :: Begins(text, n, ts[0]) && Spaced(text[n + |TokText(ts[0])|..], ts[1..])
  }

  lemma {:induction false} SpacedBegins(text: seq<byte>, n: nat, t: Tok, ts: seq<Tok>)
    requires Begins(text, n, t) && Spaced(text[n + |TokText(t)|..], ts)
    ensures Spaced(text, [t] + ts)
  {
    hide TokText, Blank;
    assert ([t] + ts)[1..] == ts && ([t] + ts)[0] == t;
  }

  lemma {:induction false} SpacedInverse(text: seq<byte>, ts: seq<Tok>) returns (n: nat)
    requires ts != [] && Spaced(text, ts)
    ensures Begins(text, n, ts[0]) && Spaced(text[n + |TokText(ts[0])|..], ts[1..])
  {
    hide TokText, Blank;
    n :| Begins(text, n, ts[0]) && Spaced(text[n + |TokText(ts[0])|..], ts[1..]);
  }

  lemma {:induction false} BeginsBehind(blank: seq<byte>, text: seq<byte>, n: nat, t: Tok)
    requires Blank(blank) && Begins(text, n, t)
    ensures Begins(blank + text, |blank| + n, t)
    ensures (blank + text)[|blank| + n + |TokText(t)|..] == text[n + |TokText(t)|..]
  {
    hide TokText, IsSpace;
    var m := |blank| + n;
    var end := n + |TokText(t)|;
    assert (blank + text)[..m] == blank + text[..n];
    assert (blank + text)[m..|blank| + end] == text[n..end];
  }

  lemma {:induction false} BeginsBefore(a: seq<byte>, n: nat, t: Tok, b: seq<byte>)
    requires Begins(a, n, t)
    ensures Begins(a + b, n, t) && (a + b)[n + |TokText(t)|..] == a[n + |TokText(t)|..] + b
  {
    hide TokText, IsSpace;
    var end := n + |TokText(t)|;
    assert (a + b)[..n] == a[..n] && (a + b)[n..end] == a[n..end];
  }

  lemma {:induction false} SpacedBlank(blank: seq<byte>, text: seq<byte>, ts: seq<Tok>)
    requires Blank(blank) && Spaced(text, ts)
    ensures Spaced(blank + text, ts)
  {
    hide TokText, Begins;
    if ts != [] {
      var n := SpacedInverse(text, ts);
      BeginsBehind(blank, text, n, ts[0]);
      SpacedBegins(blank + text, |blank| + n, ts[0], ts[1..]);
      assert [ts[0]] + ts[1..] == ts;
    }
  }

  lemma {:induction false} SpacedAppend(a: seq<byte>, ts: seq<Tok>, b: seq<byte>, us: seq<Tok>)
    requires Spaced(a, ts) && Spaced(b, us)
    ensures Spaced(a + b, ts + us)
    decreases |ts|
  {
    hide TokText, Blank;
    if ts == [] {
      SpacedBlank(a, b, us);
      assert ts + us == us;
    } else {
      var n := SpacedInverse(a, ts);
      SpacedAppend(a[n + |TokText(ts[0])|..], ts[1..], b, us);
      BeginsBefore(a, n, ts[0], b);
      SpacedBegins(a + b, n, ts[0], ts[1..] + us);
      assert [ts[0]] + (ts[1..] + us) == ts + us;
    }
  }

  lemma {:induction false} SpacedToken(t: Tok)
    ensures Spaced(TokText(t), [t])
  {
    var text := TokText(t);
    assert Begins(text, 0, t);
    assert Spaced(text[0 + |text|..], []);
    SpacedBegins(text, 0, t, []);
    assert [t] + [] == [t];
  }

  // ---- The tokens of a value ----

  function BoolWord(b: bool): Tok { Word(if b then TrueToken else FalseToken) }

  /** The tokens of a value, when `show` prints its reals. */
  function Tokens(v: Value, show: real -> seq<byte>): (ts: seq<Tok>)
    ensures |ts| > 0
    decreases v, 3
  {
    match v
    case Null => [Word(NullToken)]
    case Bool(b) => [BoolWord(b)]
    case Int(i) => [Numeral(SignedDecimal(i))]
    case UInt(u) => [Numeral(SignedDecimal(u))]
    case Real(r) => [Numeral(show(r))]
    case Str(s) => [Text(s)]
    case Arr(m) => [Punct(91)] + (if ArraySize(m) == 0 then [] else ItemTokens(v, 0, show)) + [Punct(93)]
    case Obj(m) => [Punct(123)] + (if m == [] then [] else MemberTokens(v, 0, show)) + [Punct(125)]
  }

  /** The tokens of the element with this index; a hole reads as null. */
  function ElementTokens(v: Value, i: nat, show: real -> seq<byte>): (ts: seq<Tok>)
    requires v.Arr?
    ensures |ts| > 0
    decreases v, 1
  {
    if Has(v.entries, Index(i)) then Tokens(v.entries[LowerBound(v.entries, Index(i))].value, show)
    else [Word(NullToken)]
  }

  /** The tokens of the elements from index `i` on. */
  function ItemTokens(v: Value, i: nat, show: real -> seq<byte>): seq<Tok>
    requires v.Arr? && i < ArraySize(v.entries)
    decreases v, 2, ArraySize(v.entries) - i
  {
    if i + 1 == ArraySize(v.entries) then ElementTokens(v, i, show)
    else ElementTokens(v, i, show) + [COMMA] + ItemTokens(v, i + 1, show)
  }

  function NameOf(e: Entry): seq<byte> { if e.key.Name? then e.key.name else [] }

  /** The tokens of the members from number `k` on. */
  function MemberTokens(v: Value, k: nat, show: real -> seq<byte>): seq<Tok>
    requires v.Obj? && k < |v.entries|
    decreases v, 2, |v.entries| - k
  {
    var member := [Text(NameOf(v.entries[k])), COLON] + Tokens(v.entries[k].value, show);
    if k + 1 == |v.entries| then member else member + [COMMA] + MemberTokens(v, k + 1, show)
  }

  // ---- What is read back ----

  /** The value that reading back gives: holes become nulls, and unsigned integers that fit become signed. */
  function Normal(v: Value): Value
    decreases v, 3
  {
    match v
    case UInt(u) => IntegerValue(u)
    case Arr(m) => Arr(NormalItems(v, ArraySize(m)))
    case Obj(m) => Obj(NormalMembers(v, |m|))
    case _ => v
  }

  function NormalElement(v: Value, i: nat): Value
    requires v.Arr?
    decreases v, 1
  {
    if Has(v.entries, Index(i)) then Normal(v.entries[LowerBound(v.entries, Index(i))].value) else Null
  }

  /** The first `n` elements. */
  function NormalItems(v: Value, n: nat): (m: seq<Entry>)
    requires v.Arr?
    ensures |m| == n && forall i :: 0 <= i < n ==> m[i].key == Index(i)
    decreases v, 2, n
  {
    if n == 0 then [] else NormalItems(v, n - 1) + [Entry(Index(n - 1), NormalElement(v, n - 1))]
  }

  /** The first `n` members. */
  function NormalMembers(v: Value, n: nat): (m: seq<Entry>)
    requires v.Obj? && n <= |v.entries|
    ensures |m| == n && forall k :: 0 <= k < n ==> m[k].key == v.entries[k].key
    decreases v, 2, n
  {
    if n == 0 then []
    else NormalMembers(v, n - 1) + [Entry(v.entries[n - 1].key, Normal(v.entries[n - 1].value))]
  }

  /** A value whose integers are in the range that is read back exactly, and that has no reals. */
  ghost predicate Readable(v: Value) {
    match v
    case Int(i) => -2147483639 <= i <= MAX_INT
    case UInt(u) => 0 <= u <= 4294967289
    case Real(_) => false
    case Arr(m) => forall k :: 0 <= k < |m| ==> Readable(m[k].value)
    case Obj(m) => forall k :: 0 <= k < |m| ==> Readable(m[k].value)
    case _ => true
  }

  lemma {:induction false} NormalItemAt(v: Value, n: nat, i: nat)
    requires v.Arr? && i < n
    ensures NormalItems(v, n)[i] == Entry(Index(i), NormalElement(v, i))
  {
    if i < n - 1 { NormalItemAt(v, n - 1, i); }
  }

  lemma {:induction false} NormalMemberAt(v: Value, n: nat, k: nat)
    requires v.Obj? && k < n <= |v.entries|
    ensures NormalMembers(v, n)[k] == Entry(v.entries[k].key, Normal(v.entries[k].value))
  {
    if k < n - 1 { NormalMemberAt(v, n - 1, k); }
  }

  /** Reading back changes neither the size nor the keys, and what each index or name stands for is the value read
      back from what it stood for. */
  lemma {:induction false} NormalIsElementwise(v: Value, key: Key)
    requires Proper(v) && (v.Arr? || v.Obj?)
    requires v.Arr? <==> key.Index?
    ensures var n := Normal(v);
            n.Arr? == v.Arr? && n.Obj? == v.Obj? && Sorted(n.entries) && Size(n) == Size(v) &&
            Get(n.entries, key) == Normal(Get(v.entries, key))
  {
    var n := Normal(v);
    if v.Arr? {
      if key.index < ArraySize(v.entries) {
        NormalItemAt(v, ArraySize(v.entries), key.index);
        FoundAt(n.entries, key, key.index);
      } else {
        SizeIsHighest(v.entries);
        SizeIsHighest(n.entries);
      }
    } else {
      if Has(v.entries, key) {
        var k := LowerBound(v.entries, key);
        NormalMemberAt(v, |v.entries|, k);
        FoundAt(n.entries, key, k);
      } else if Has(n.entries, key) {
        FoundAt(v.entries, key, LowerBound(n.entries, key));
      }
    }
  }

  /** A value without holes whose unsigned integers do not fit in a signed one. */
  ghost predicate IsNormal(v: Value) {
    match v
    case UInt(u) => u > MAX_INT
    case Arr(m) => ArraySize(m) == |m| && forall k :: 0 <= k < |m| ==> m[k].key == Index(k) && IsNormal(m[k].value)
    case Obj(m) => forall k :: 0 <= k < |m| ==> IsNormal(m[k].value)
    case _ => true
  }

  /** Such a value is read back as it is. */
  lemma {:induction false} NormalIsItself(v: Value)
    requires Proper(v) && IsNormal(v)
    ensures Normal(v) == v
    decreases v
  {
    if v.Arr? {
      forall i | 0 <= i < |v.entries| ensures Normal(v).entries[i] == v.entries[i] {
        NormalItemAt(v, |v.entries|, i);
        FoundAt(v.entries, Index(i), i);
        NormalIsItself(v.entries[i].value);
      }
    } else if v.Obj? {
      forall k | 0 <= k < |v.entries| ensures Normal(v).entries[k] == v.entries[k] {
        NormalMemberAt(v, |v.entries|, k);
        NormalIsItself(v.entries[k].value);
      }
    }
  }
}
