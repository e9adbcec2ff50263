/** The two writers of JSON values: one compact, one indented with a cache of child texts. */
module JsonWriter {
  import opened Bytes
  import opened JsonUnicode
  import opened JsonValue
  import opened JsonParser
  import opened JsonText

  // ---- Scalars ----

  lemma {:induction false} DecimalLength(n: nat, digits: nat)
    requires digits > 0 && n < Power10(digits)
    ensures |Decimal(n)| <= digits
    decreases digits
  {
    hide Decimal, Power10;
    PowerStep(digits - 1);
    DecimalStep(n);
    if n >= 10 && digits > 1 { DecimalLength(n / 10, digits - 1); }
  }

  lemma {:induction false} PowerStep(n: nat)
    ensures Power10(n + 1) == 10 * Power10(n) && (n == 0 ==> Power10(n) == 1)
  {
  }

  lemma {:induction false} DecimalStep(n: nat)
    ensures |Decimal(n)| == if n < 10 then 1 else |Decimal(n / 10)| + 1
  {
  }

  function Power10(n: nat): nat { if n == 0 then 1 else 10 * Power10(n - 1) }

  /** uintToString: the digits are written from the back, in front of a terminating zero. */
  method UintToString(value: nat, buffer: array<byte>) returns (current: nat)
    requires buffer.Length == 32 && value <= MAX_UINT
    modifies buffer
    ensures current + |Decimal(value)| == 31 && buffer[current..31] == Decimal(value) && buffer[31] == 0
  {
    assert Power10(10) == 10000000000;
    DecimalLength(value, 10);
    current := 31;
    buffer[current] := 0;
    var rest: nat := value;
    var more := true;
    while more
      invariant 0 <= current <= 31 && buffer[31] == 0
      invariant if more then Decimal(rest) + buffer[current..31] == Decimal(value)
                else buffer[current..31] == Decimal(value)
      invariant !more ==> rest == 0
      decreases more, rest
    {
      ghost var before := buffer[current..31];
      assert |Decimal(rest)| + |before| <= 10;
      current := current - 1;
      buffer[current] := (rest % 10 + ZERO) as byte;
      assert buffer[current..31] == [(ZERO + rest % 10) as byte] + before;
      if rest >= 10 {
        assert Decimal(rest) == Decimal(rest / 10) + [(ZERO + rest % 10) as byte];
        assert Decimal(rest / 10) + ([(ZERO + rest % 10) as byte] + before) == Decimal(rest) + before;
      }
      rest := rest / 10;
      more := rest != 0;
    }
    assert |buffer[current..31]| == |Decimal(value)|;
  }

  /** valueToString of an integer; the buffer is never overrun. */
  method ValueToString(value: int) returns (s: seq<byte>)
    requires MIN_INT <= value <= MAX_UINT
    ensures s == SignedDecimal(value)
  {
    var buffer := new byte[32];
    var current := UintToString(if value < 0 then -value else value, buffer);
    if value < 0 {
      DecimalLength(-value, 10) by { assert Power10(10) == 10000000000; }
      ghost var digits := buffer[current..31];
      current := current - 1;
      buffer[current] := MINUS;
      assert buffer[current..31] == [MINUS] + digits;
    }
    s := buffer[current..31];
  }

  predicate Special(c: byte) { ShortOf(c) >= 0 || IsControl(c) }

  lemma {:induction false} OrdinaryText(s: seq<byte>)
    requires forall i :: 0 <= i < |s| ==> !Special(s[i])
    ensures WriterText(s) == s
  {
    if s != [] {
      OrdinaryText(s[1..]);
      assert UnitsOf(WriterUnit, s)[1..] == UnitsOf(WriterUnit, s[1..]);
    }
  }

  /** strpbrk and containsControlCharacter together: whether the string holds a character to escape. */
  method NeedsEscapes(value: seq<byte>) returns (found: bool)
    ensures found <==> exists i :: 0 <= i < |value| && Special(value[i])
  {
    found := false;
    for k := 0 to |value|
      invariant found <==> exists i :: 0 <= i < k && Special(value[i])
    {
      if Special(value[k]) { found := true; }
    }
  }

  lemma {:induction false} EmptyText()
    ensures WriterText([]) == []
  {
  }

  /** valueToQuotedString. */
  method ValueToQuotedString(value: seq<byte>) returns (result: seq<byte>)
    ensures result == Quoted(value)
  {
    hide UnitsOf, UnitsText, UpperHex4, ShortOf, ShortEscape;
    var special := NeedsEscapes(value);
    if !special {
      OrdinaryText(value);
      return [QUOTE] + value + [QUOTE];
    }
    result := [QUOTE];
    EmptyText();
    for k := 0 to |value|
      invariant result == [QUOTE] + WriterText(value[..k])
    {
      var c := value[k];
      assert value[..k + 1] == value[..k] + [c];
      UnitsOfAppend(WriterUnit, value[..k], c);
      if ShortOf(c) >= 0 {
        result := result + [BACKSLASH, ShortOf(c) as byte];
      } else if IsControl(c) {
        result := result + [BACKSLASH, 117] + UpperHex4(c);
      } else {
        result := result + [c];
      }
    }
    assert value[..|value|] == value;
    result := result + [QUOTE];
  }

  /** escapeJsonString. */
  method EscapeJsonString(input: seq<byte>) returns (result: seq<byte>)
    ensures result == KickstartText(input)
  {
    result := [];
    for k := 0 to |input|
      invariant result == KickstartText(input[..k])
    {
      var c := input[k];
      assert input[..k + 1] == input[..k] + [c];
      UnitsOfAppend(KickstartUnit, input[..k], c);
      if ShortOf(c) >= 0 {
        result := result + [BACKSLASH, ShortOf(c) as byte];
      } else {
        result := result + [c];
      }
    }
    assert input[..|input|] == input;
  }

  // ---- The compact writer ----

  /** The tokens without white space, but for the one behind colons that YAML asks for. */
  function FastText(ts: seq<Tok>, yaml: bool): seq<byte> {
    if ts == [] then []
    else TokText(ts[0]) + (if yaml && ts[0] == COLON then [32] else []) + FastText(ts[1..], yaml)
  }

  lemma {:induction false} FastTextAppend(ts: seq<Tok>, us: seq<Tok>, yaml: bool)
    ensures FastText(ts + us, yaml) == FastText(ts, yaml) + FastText(us, yaml)
  {
    hide TokText;
    if ts == [] {
      assert ts + us == us;
    } else {
      assert (ts + us)[1..] == ts[1..] + us;
      FastTextAppend(ts[1..], us, yaml);
    }
  }

  lemma {:induction false} FastTextIsSpaced(ts: seq<Tok>, yaml: bool)
    ensures Spaced(FastText(ts, yaml), ts)
  {
    hide TokText, Spaced;
    if ts == [] {
      assert Spaced([], []) by { EmptyIsSpaced(); }
    } else {
      FastTextIsSpaced(ts[1..], yaml);
      var rest := FastText(ts[1..], yaml);
      var gap: seq<byte> := if yaml && ts[0] == COLON then [32] else [];
      SpacedBlank(gap, rest, ts[1..]);
      SpacedToken(ts[0]);
      SpacedAppend(TokText(ts[0]), [ts[0]], gap + rest, ts[1..]);
      assert FastText(ts, yaml) == TokText(ts[0]) + (gap + rest);
      assert [ts[0]] + ts[1..] == ts;
    }
  }

  lemma {:induction false} EmptyIsSpaced()
    ensures Spaced([], [])
  {
  }

  /** The tokens of an array from element `i` on, with the comma in front. */
  function PendingItems(v: Value, i: nat, show: real -> seq<byte>): seq<Tok>
    requires v.Arr? && i <= ArraySize(v.entries)
  {
    if i == ArraySize(v.entries) then [] else (if i > 0 then [COMMA] else []) + ItemTokens(v, i, show)
  }

  function PendingMembers(v: Value, k: nat, show: real -> seq<byte>): seq<Tok>
    requires v.Obj? && k <= |v.entries|
  {
    if k == |v.entries| then [] else (if k > 0 then [COMMA] else []) + MemberTokens(v, k, show)
  }

  lemma {:induction false} ElementIsGet(v: Value, i: nat, show: real -> seq<byte>)
    requires v.Arr?
    ensures ElementTokens(v, i, show) == Tokens(Get(v.entries, Index(i)), show)
  {
  }

  lemma {:induction false} PendingItemsStep(v: Value, i: nat, show: real -> seq<byte>, yaml: bool)
    requires v.Arr? && i < ArraySize(v.entries)
    ensures FastText(PendingItems(v, i, show), yaml) ==
            (if i > 0 then FastText([COMMA], yaml) else []) + FastText(Tokens(Get(v.entries, Index(i)), show), yaml) +
            FastText(PendingItems(v, i + 1, show), yaml)
  {
    hide TokText, Tokens;
    var separator: seq<Tok> := if i > 0 then [COMMA] else [];
    var element := Tokens(Get(v.entries, Index(i)), show);
    var rest := PendingItems(v, i + 1, show);
    ElementIsGet(v, i, show);
    assert PendingItems(v, i, show) == separator + element + rest;
    FastTextAppend(separator, element, yaml);
    FastTextAppend(separator + element, rest, yaml);
  }

  lemma {:induction false} ArrayText(v: Value, show: real -> seq<byte>, yaml: bool)
    requires v.Arr?
    ensures FastText(Tokens(v, show), yaml) == FastText([Punct(91)], yaml) + FastText(PendingItems(v, 0, show), yaml) +
            FastText([Punct(93)], yaml)
    ensures FastText(PendingItems(v, ArraySize(v.entries), show), yaml) == []
  {
    hide TokText;
    var ts := PendingItems(v, 0, show);
    assert Tokens(v, show) == [Punct(91)] + ts + [Punct(93)];
    FastTextAppend([Punct(91)], ts, yaml);
    FastTextAppend([Punct(91)] + ts, [Punct(93)], yaml);
  }

  /** The value of a member is found again under its name. */
  lemma {:induction false} MemberFound(v: Value, k: nat)
    requires Proper(v) && v.Obj? && k < |v.entries|
    ensures v.entries[k].key == Name(NameOf(v.entries[k]))
    ensures Get(v.entries, v.entries[k].key) == v.entries[k].value
  {
    FoundAt(v.entries, v.entries[k].key, k);
  }

  lemma {:induction false} PendingMembersStep(v: Value, k: nat, show: real -> seq<byte>, yaml: bool)
    requires Proper(v) && v.Obj? && k < |v.entries|
    ensures var name := NameOf(v.entries[k]);
            FastText(PendingMembers(v, k, show), yaml) ==
            (if k > 0 then FastText([COMMA], yaml) else []) +
            (FastText([Text(name)], yaml) + FastText([COLON], yaml) +
             FastText(Tokens(Get(v.entries, Name(name)), show), yaml)) +
            FastText(PendingMembers(v, k + 1, show), yaml)
  {
    hide TokText, Tokens, Proper, Get;
    MemberFound(v, k);
    var separator: seq<Tok> := if k > 0 then [COMMA] else [];
    var name := [Text(NameOf(v.entries[k]))];
    var value := Tokens(v.entries[k].value, show);
    var rest := PendingMembers(v, k + 1, show);
    assert PendingMembers(v, k, show) == separator + (name + [COLON] + value + rest);
    FastTextAppend(separator, name + [COLON] + value + rest, yaml);
    FastTextAppend(name, [COLON], yaml);
    FastTextAppend(name + [COLON], value, yaml);
    FastTextAppend(name + [COLON] + value, rest, yaml);
  }

  lemma {:induction false} ObjectText(v: Value, show: real -> seq<byte>, yaml: bool)
    requires v.Obj?
    ensures FastText(Tokens(v, show), yaml) ==
            FastText([Punct(123)], yaml) + FastText(PendingMembers(v, 0, show), yaml) + FastText([Punct(125)], yaml)
    ensures FastText(PendingMembers(v, |v.entries|, show), yaml) == []
  {
    hide TokText;
    var ts := PendingMembers(v, 0, show);
    assert Tokens(v, show) == [Punct(123)] + ts + [Punct(125)];
    FastTextAppend([Punct(123)], ts, yaml);
    FastTextAppend([Punct(123)] + ts, [Punct(125)], yaml);
  }

  class FastWriter {
    var document: seq<byte>
    var yaml: bool
    const show: real -> seq<byte>

    constructor (show: real -> seq<byte>)
      ensures !yaml && this.show == show
    {
      this.show := show;
      yaml := false;
      document := [];
    }

    method EnableYamlCompatibility()
      modifies this`yaml
      ensures yaml
    {
      yaml := true;
    }

    method Put(t: Tok)
      modifies this`document
      ensures document == old(document) + FastText([t], yaml)
    {
      assert [t][1..] == [];
      document := document + TokText(t) + (if yaml && t == COLON then [32] else []);
    }

    method WriteValue(v: Value)
      requires Proper(v)
      modifies this`document
      ensures document == old(document) + FastText(Tokens(v, show), yaml)
      decreases Height(v), 1
    {
      hide FastText, TokText;
      match v
      case Null => Put(Word(NullToken));
      case Bool(b) => Put(BoolWord(b));
      case Int(i) =>
        var s := ValueToString(i);
        Put(Numeral(s));
      case UInt(u) =>
        var s := ValueToString(u);
        Put(Numeral(s));
      case Real(r) => Put(Numeral(show(r)));
      case Str(s) => Put(Text(s));
      case Arr(_) => WriteArray(v);
      case Obj(_) => WriteObject(v);
    }

    method WriteArray(v: Value)
      requires Proper(v) && v.Arr?
      modifies this`document
      ensures document == old(document) + FastText(Tokens(v, show), yaml)
      decreases Height(v), 0, 1
    {
      hide FastText, TokText, Tokens, Before, PendingItems, Proper;
      ghost var start := document;
      Put(Punct(91));
      var size := ArraySize(v.entries);
      for index := 0 to size
        invariant document + FastText(PendingItems(v, index, show), yaml) ==
                  start + FastText([Punct(91)], yaml) + FastText(PendingItems(v, 0, show), yaml)
      {
        WriteElement(v, index);
      }
      ArrayText(v, show, yaml);
      assert document == start + FastText([Punct(91)], yaml) + FastText(PendingItems(v, 0, show), yaml);
      Put(Punct(93));
    }

    /** One turn of the loop over the elements: what was pending is written or still pending. */
    method WriteElement(v: Value, index: nat)
      requires Proper(v) && v.Arr? && index < ArraySize(v.entries)
      modifies this`document
      ensures document + FastText(PendingItems(v, index + 1, show), yaml) ==
              old(document) + FastText(PendingItems(v, index, show), yaml)
      decreases Height(v), 0, 0
    {
      hide FastText, TokText, Tokens, Before, PendingItems, Proper;
      PendingItemsStep(v, index, show, yaml);
      var element := Get(v.entries, Index(index));
      ghost var separator := if index > 0 then FastText([COMMA], yaml) else [];
      if index > 0 { Put(COMMA); }
      assert document == old(document) + separator;
      GetHeight(v, Index(index));
      ElementProper(v, Index(index));
      WriteValue(element);
      Regroup(old(document), separator, FastText(Tokens(element, show), yaml), FastText(PendingItems(v, index + 1, show), yaml));
    }

    /** One turn of the loop over the members. */
    method WriteEntry(v: Value, k: nat)
      requires Proper(v) && v.Obj? && k < |v.entries|
      modifies this`document
      ensures document + FastText(PendingMembers(v, k + 1, show), yaml) ==
              old(document) + FastText(PendingMembers(v, k, show), yaml)
      decreases Height(v), 0, 0
    {
      hide FastText, TokText, Tokens, Before, PendingMembers, Proper;
      PendingMembersStep(v, k, show, yaml);
      ghost var separator := if k > 0 then FastText([COMMA], yaml) else [];
      if k > 0 { Put(COMMA); }
      assert document == old(document) + separator;
      var name := NameOf(v.entries[k]);
      var value := Get(v.entries, Name(name));
      MemberFound(v, k);
      GetHeight(v, Name(name));
      ElementProper(v, Name(name));
      WriteMember(name, value);
      Regroup(old(document), separator,
              FastText([Text(name)], yaml) + FastText([COLON], yaml) + FastText(Tokens(value, show), yaml),
              FastText(PendingMembers(v, k + 1, show), yaml));
    }

    method WriteMember(name: seq<byte>, value: Value)
      requires Proper(value)
      modifies this`document
      ensures document == old(document) +
        (FastText([Text(name)], yaml) + FastText([COLON], yaml) + FastText(Tokens(value, show), yaml))
      decreases Height(value), 2
    {
      hide FastText, TokText, Tokens, Proper;
      Put(Text(name));
      Put(COLON);
      WriteValue(value);
    }

    method WriteObject(v: Value)
      requires Proper(v) && v.Obj?
      modifies this`document
      ensures document == old(document) + FastText(Tokens(v, show), yaml)
      decreases Height(v), 0, 1
    {
      hide FastText, TokText, Tokens, Before, PendingMembers, Proper;
      ghost var start := document;
      Put(Punct(123));
      for k := 0 to |v.entries|
        invariant document + FastText(PendingMembers(v, k, show), yaml) ==
                  start + FastText([Punct(123)], yaml) + FastText(PendingMembers(v, 0, show), yaml)
      {
        WriteEntry(v, k);
      }
      ObjectText(v, show, yaml);
      assert document == start + FastText([Punct(123)], yaml) + FastText(PendingMembers(v, 0, show), yaml);
      Put(Punct(125));
    }

    /** write: the tokens of the value in a row, and a line feed. */
    method Write(root: Value) returns (text: seq<byte>)
      requires Proper(root)
      modifies this`document
      ensures text == document == FastText(Tokens(root, show), yaml) + [10]
      ensures Spaced(text, Tokens(root, show))
    {
      hide FastText, TokText, Tokens, Spaced, Proper;
      document := [];
      WriteValue(root);
      assert document == FastText(Tokens(root, show), yaml);
      FastTextIsSpaced(Tokens(root, show), yaml);
      SpacedLineFeed(document, Tokens(root, show));
      document := document + [10];
      text := document;
    }
  }

  lemma {:induction false} Regroup(text: seq<byte>, a: seq<byte>, b: seq<byte>, rest: seq<byte>)
    ensures text + a + b + rest == text + (a + b + rest)
  {
  }

  lemma {:induction false} SpacedLineFeed(text: seq<byte>, ts: seq<Tok>)
    requires Spaced(text, ts)
    ensures Spaced(text + [10], ts)
  {
    assert Spaced([10], []);
    SpacedAppend(text, ts, [10], []);
    assert ts + [] == ts;
  }

  lemma {:induction false} ElementProper(v: Value, key: Key)
    requires Proper(v) && (v.Arr? || v.Obj?)
    ensures Proper(Get(v.entries, key))
  {
  }
}
