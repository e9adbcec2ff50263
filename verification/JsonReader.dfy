/** The JSON reader as an object: a position in the document, a stack of values under construction, and errors. */
module JsonReader {
  import opened Bytes
  import opened JsonUnicode
  import opened JsonValue
  import opened JsonParser

  /** The stack with another value on top. */
  function Replaced(nodes: seq<Value>, v: Value): (r: seq<Value>)
    requires nodes != []
    ensures |r| == |nodes| && r[|r| - 1] == v
  {
    nodes[..|nodes| - 1] + [v]
  }

  lemma {:induction false} ReplacedBySame(nodes: seq<Value>)
    requires nodes != []
    ensures Replaced(nodes, nodes[|nodes| - 1]) == nodes
  {
  }

  lemma {:induction false} ReplacedTwice(nodes: seq<Value>, v: Value, w: Value)
    requires nodes != []
    ensures Replaced(Replaced(nodes, v), w) == Replaced(nodes, w)
  {
  }

  class Reader {
    var document: seq<byte>
    var current: nat
    var nodes: seq<Value>
    var errors: seq<Error>
    const allowComments: bool
    const strictRoot: bool
    const scan: seq<byte> -> Scanned

    constructor (allowComments: bool, strictRoot: bool, scan: seq<byte> -> Scanned)
      ensures this.allowComments == allowComments && this.strictRoot == strictRoot && this.scan == scan
    {
      this.allowComments, this.strictRoot, this.scan := allowComments, strictRoot, scan;
      document, current, nodes, errors := [], 0, [], [];
    }

    ghost predicate InDocument()
      reads this
    { current <= |document| }

    function Environment(): Env
      reads this`document
    { Env(document, allowComments, scan) }

    // ---- Characters and tokens ----

    /** getNextChar: a zero at the end, without a step. */
    method GetNextChar() returns (c: byte)
      requires InDocument()
      modifies this`current
      ensures InDocument() && c == At(document, old(current))
      ensures current == if old(current) < |document| then old(current) + 1 else old(current)
    {
      if current == |document| { return 0; }
      c := document[current];
      current := current + 1;
    }

    method SkipSpaces()
      requires InDocument()
      modifies this`current
      ensures InDocument() && current == JsonParser.SkipSpaces(document, old(current))
    {
      while current != |document| && IsSpace(document[current])
        invariant InDocument() && JsonParser.SkipSpaces(document, current) == JsonParser.SkipSpaces(document, old(current))
        decreases |document| - current
      {
        current := current + 1;
      }
    }

    /** match: the pattern is compared from its last character to its first. */
    method Match(pattern: seq<byte>) returns (ok: bool)
      requires InDocument()
      modifies this`current
      ensures InDocument() && ok == Matches(document, old(current), pattern)
      ensures current == if ok then old(current) + |pattern| else old(current)
    {
      if |document| - current < |pattern| { return false; }
      ghost var part := document[current..current + |pattern|];
      var index := |pattern|;
      while index > 0
        invariant 0 <= index <= |pattern| && part[index..] == pattern[index..]
      {
        index := index - 1;
        assert part[index] == document[current + index];
        if document[current + index] != pattern[index] { return false; }
        assert part[index..] == [part[index]] + part[index + 1..];
        assert pattern[index..] == [pattern[index]] + pattern[index + 1..];
      }
      current := current + |pattern|;
      ok := true;
    }

    method ReadCStyleComment() returns (ok: bool)
      requires InDocument()
      modifies this`current
      ensures InDocument() && Scan(current, ok) == SkipBlockComment(document, old(current))
    {
      var closing := false;
      while current != |document| && !closing
        invariant InDocument()
        invariant SkipBlockComment(document, old(current)) ==
          if closing then Scan(current + 1, true) else SkipBlockComment(document, current)
        invariant closing ==> At(document, current) == 47
        decreases |document| - current
      {
        var c := GetNextChar();
        closing := c == 42 && At(document, current) == 47;
      }
      var c := GetNextChar();
      ok := c == 47;
    }

    method ReadCppStyleComment()
      requires InDocument()
      modifies this`current
      ensures InDocument() && current == SkipLineComment(document, old(current))
    {
      while current != |document|
        invariant InDocument() && SkipLineComment(document, current) == SkipLineComment(document, old(current))
        decreases |document| - current
      {
        var c := GetNextChar();
        if c == 13 || c == 10 { return; }
      }
    }

    method ReadComment() returns (ok: bool)
      requires InDocument()
      modifies this`current
      ensures InDocument() && Scan(current, ok) == SkipComment(document, old(current))
    {
      var c := GetNextChar();
      ok := false;
      if c == 42 {
        ok := ReadCStyleComment();
      } else if c == 47 {
        ReadCppStyleComment();
        ok := true;
      }
    }

    method ReadNumber()
      requires InDocument()
      modifies this`current
      ensures InDocument() && current == SkipNumber(document, old(current))
    {
      while current != |document| && NumberCharacter(document[current])
        invariant InDocument() && SkipNumber(document, current) == SkipNumber(document, old(current))
        decreases |document| - current
      {
        current := current + 1;
      }
    }

    method ReadString() returns (ok: bool)
      requires InDocument()
      modifies this`current
      ensures InDocument() && Scan(current, ok) == SkipString(document, old(current))
    {
      var c: byte := 0;
      while current != |document|
        invariant InDocument() && c != QUOTE
        invariant SkipString(document, current) == SkipString(document, old(current))
        decreases |document| - current
      {
        c := GetNextChar();
        if c == BACKSLASH {
          var skipped := GetNextChar();
        } else if c == QUOTE {
          return true;
        }
      }
      ok := c == QUOTE;
    }

    method ReadToken() returns (token: Token)
      requires InDocument()
      modifies this`current
      ensures InDocument() && token == JsonParser.ReadToken(document, old(current)) && current == token.end
    {
      hide SkipString, SkipComment, SkipNumber;
      SkipSpaces();
      var start := current;
      var c := GetNextChar();
      var ok := true;
      var kind := EndOfStream;
      if c == 123 {
        kind := ObjectBegin;
      } else if c == 125 {
        kind := ObjectEnd;
      } else if c == 91 {
        kind := ArrayBegin;
      } else if c == 93 {
        kind := ArrayEnd;
      } else if c == QUOTE {
        kind := StringToken;
        ok := ReadString();
      } else if c == 47 {
        kind := CommentToken;
        ok := ReadComment();
      } else if IsDigit(c) || c == MINUS {
        kind := NumberToken;
        ReadNumber();
      } else if c == 116 {
        kind := TrueToken;
        ok := Match(RUE);
      } else if c == 102 {
        kind := FalseToken;
        ok := Match(ALSE);
      } else if c == 110 {
        kind := NullToken;
        ok := Match(ULL);
      } else if c == 44 {
        kind := ArraySeparator;
      } else if c == 58 {
        kind := MemberSeparator;
      } else if c != 0 {
        ok := false;
      }
      token := Token(if ok then kind else ErrorToken, start, current);
    }

    /** The loops over comment tokens. */
    method SkipCommentsFrom(first: Token) returns (token: Token)
      requires InDocument() && Solid(first) && first.end == current
      modifies this`current
      ensures InDocument() && token == SkipComments(document, first) && current == token.end
    {
      hide TokenAt;
      token := first;
      while token.kind == CommentToken
        invariant InDocument() && Solid(token) && token.end == current
        invariant SkipComments(document, token) == SkipComments(document, first)
        decreases |document| - current, if token.kind == CommentToken then 1 else 0
      {
        token := ReadToken();
      }
    }

    method SkipCommentTokens() returns (token: Token)
      requires InDocument()
      modifies this`current
      ensures InDocument() && token == ValueToken(Environment(), old(current)) && current == token.end
    {
      hide JsonParser.ReadToken, SkipComments;
      token := ReadToken();
      if allowComments { token := SkipCommentsFrom(token); }
    }

    // ---- Errors ----

    method AddError(message: Message, token: Token, extra: int) returns (ok: bool)
      modifies this`errors
      ensures !ok && errors == old(errors) + [Error(token, message, extra)]
    {
      errors := errors + [Error(token, message, extra)];
      ok := false;
    }

    /** recoverFromError: it ends, and leaves no errors of its own. */
    method RecoverFromError(skipUntil: TokenType) returns (ok: bool)
      requires InDocument()
      modifies this`current, this`errors
      ensures InDocument() && current == Recovered(document, old(current), skipUntil)
      ensures !ok && errors == old(errors)
    {
      hide TokenAt;
      var errorCount := |errors|;
      while true
        invariant InDocument() && errors == old(errors)
        invariant Recovered(document, current, skipUntil) == Recovered(document, old(current), skipUntil)
        decreases |document| - current
      {
        var skip := ReadToken();
        if skip.kind == skipUntil || skip.kind == EndOfStream { break; }
      }
      errors := errors[..errorCount];
      ok := false;
    }

    method AddErrorAndRecover(message: Message, token: Token, skipUntil: TokenType) returns (ok: bool)
      requires InDocument()
      modifies this`current, this`errors
      ensures InDocument() && current == Recovered(document, old(current), skipUntil)
      ensures !ok && errors == old(errors) + [Error(token, message, -1)]
    {
      var added := AddError(message, token, -1);
      ok := RecoverFromError(skipUntil);
    }

    // ---- Strings ----

    method DecodeUnicodeEscapeSequence(token: Token, p: nat, end: nat) returns (ok: bool, next: nat, unicode: nat)
      requires p <= end <= |document|
      modifies this`errors
      ensures match EscapeSequence(document, p, end)
              case CodeUnit(v, q) => ok && next == q && unicode == v && errors == old(errors)
              case BadUnit(message, extra) => !ok && errors == old(errors) + [Error(token, message, extra)]
    {
      next, unicode := p, 0;
      if end - p < 4 {
        ok := AddError(FourDigitsExpected, token, p);
        return;
      }
      for index := 0 to 4
        invariant next == p + index && errors == old(errors)
        invariant HexDigits(document, p, 0, 0) == HexDigits(document, next, index, unicode)
      {
        var c := document[next];
        next := next + 1;
        var digit := HexDigit(c);
        if digit < 0 {
          ok := AddError(HexDigitExpected, token, next);
          return;
        }
        unicode := unicode * 16 + digit;
      }
      ok := true;
    }

    method DecodeUnicodeCodePoint(token: Token, p: nat, end: nat) returns (ok: bool, next: nat, unicode: nat)
      requires p <= end <= |document|
      modifies this`errors
      ensures match CodePoint(document, p, end)
              case CodeUnit(v, q) => ok && next == q && unicode == v && errors == old(errors)
              case BadUnit(message, extra) => !ok && errors == old(errors) + [Error(token, message, extra)]
    {
      hide HexDigits;
      ok, next, unicode := DecodeUnicodeEscapeSequence(token, p, end);
      if !ok || !(0xD800 <= unicode <= 0xDBFF) { return; }
      if end - next < 6 {
        ok := AddError(SixCharactersExpected, token, next);
        return;
      }
      if document[next] != BACKSLASH {
        ok := AddError(SecondHalfExpected, token, next + 1);
        return;
      }
      if document[next + 1] != 117 {
        ok := AddError(SecondHalfExpected, token, next + 2);
        return;
      }
      var surrogatePair: nat;
      ok, next, surrogatePair := DecodeUnicodeEscapeSequence(token, next + 2, end);
      unicode := CombinePair(unicode, surrogatePair);
    }

    /** decodeString: the decoded text, or one error. */
    method DecodeString(token: Token) returns (ok: bool, decoded: seq<byte>)
      requires token.start + 2 <= token.end <= |document|
      modifies this`errors
      ensures match JsonParser.DecodeString(document, token)
              case Decoded(text) => ok && decoded == text && errors == old(errors)
              case Undecodable(message, extra) => !ok && errors == old(errors) + [Error(token, message, extra)]
    {
      hide CodePoint, CodePointToUtf8;
      decoded := [];
      var p := token.start + 1;
      var end := token.end - 1;
      ghost var whole := DecodeFrom(document, p, end);
      while p != end
        invariant p <= end && errors == old(errors)
        invariant whole == DecodeFrom(document, p, end).Behind(decoded)
        decreases end - p
      {
        ghost var before := DecodeFrom(document, p, end);
        var c := document[p];
        p := p + 1;
        if c == QUOTE {
          assert whole == Decoded(decoded + []);
          return true, decoded;
        } else if c == BACKSLASH {
          if p == end {
            ok := AddError(EmptyEscape, token, p);
            return;
          }
          var escape := document[p];
          p := p + 1;
          if escape == 117 {
            var unicode: nat;
            ok, p, unicode := DecodeUnicodeCodePoint(token, p, end);
            if !ok { return; }
            BehindBehind(decoded, CodePointToUtf8(unicode), DecodeFrom(document, p, end));
            decoded := decoded + CodePointToUtf8(unicode);
          } else {
            var character := ShortEscape(escape);
            if character < 0 {
              ok := AddError(BadEscape, token, p);
              return;
            }
            BehindBehind(decoded, [character as byte], DecodeFrom(document, p, end));
            decoded := decoded + [character as byte];
          }
        } else {
          BehindBehind(decoded, [c], DecodeFrom(document, p, end));
          decoded := decoded + [c];
        }
      }
      assert whole == Decoded(decoded + []);
      ok := true;
    }

    // ---- Values ----

    function Top(): Value
      requires nodes != []
      reads this`nodes
    { nodes[|nodes| - 1] }

    /** Assigns to the current value. */
    method SetCurrentValue(v: Value)
      requires nodes != []
      modifies this`nodes
      ensures nodes == Replaced(old(nodes), v)
    {
      nodes := Replaced(nodes, v);
    }

    /** The first loop of decodeNumber. */
    method IsDouble(token: Token) returns (isDouble: bool)
      requires token.start <= token.end <= |document|
      ensures isDouble == LooksDouble(document[token.start..token.end])
    {
      isDouble := false;
      ghost var lexeme := document[token.start..token.end];
      for inspect := token.start to token.end
        invariant isDouble <==> exists i :: 0 <= i < inspect - token.start && DoubleCharacter(lexeme, i)
      {
        var c := document[inspect];
        assert c == lexeme[inspect - token.start];
        assert DoubleCharacter(lexeme, inspect - token.start) <==>
          (c == 46 || c == 101 || c == 69 || c == 43 || (c == MINUS && inspect != token.start));
        isDouble := isDouble || c == 46 || c == 101 || c == 69 || c == 43 || (c == MINUS && inspect != token.start);
      }
    }

    /** The digit loop of decodeNumber. */
    method DecodeDigits(start: nat, end: nat, threshold: nat) returns (r: Numeric)
      requires start <= end <= |document|
      ensures r == IntegerFrom(document[start..end], 0, threshold)
    {
      var value := 0;
      for p := start to end
        invariant value >= 0
        invariant IntegerFrom(document[start..end], 0, threshold) == IntegerFrom(document[p..end], value, threshold)
      {
        var c := document[p];
        assert document[p..end][0] == c && document[p..end][1..] == document[p + 1..end];
        if !IsDigit(c) { return Garbage; }
        if value >= threshold { return Inexact; }
        value := value * 10 + (c - ZERO);
      }
      assert document[end..end] == [];
      r := Exact(value);
    }

    method DecodeNumber(token: Token) returns (ok: bool)
      requires InDocument() && token.start < token.end == current && nodes != []
      modifies this`nodes, this`errors
      ensures Result(ok, JsonParser.DecodeNumber(Environment(), token, old(Top())), old(nodes), old(errors))
    {
      hide LooksDouble, IntegerFrom;
      ReplacedBySame(nodes);
      var isDouble := IsDouble(token);
      ghost var lexeme := document[token.start..token.end];
      if isDouble {
        ok := DecodeDouble(token);
        return;
      }
      var isNegative := document[token.start] == MINUS;
      var start := if isNegative then token.start + 1 else token.start;
      assert isNegative ==> lexeme[1..] == document[start..token.end];
      assert lexeme != [] && (isNegative <==> lexeme[0] == MINUS);
      var threshold: nat := (if isNegative then 0x8000_0000 else MAX_UINT) / 10;
      assert threshold == if isNegative then NEGATIVE_THRESHOLD else POSITIVE_THRESHOLD;
      var r := DecodeDigits(start, token.end, threshold);
      match r
      case Garbage => ok := AddError(NotANumber, token, -1);
      case Inexact => ok := DecodeDouble(token);
      case Exact(value) =>
        if isNegative {
          SetCurrentValue(Int(-value));
        } else if value <= MAX_INT {
          SetCurrentValue(Int(value));
        } else {
          SetCurrentValue(UInt(value));
        }
        ok := true;
    }

    method DecodeDouble(token: Token) returns (ok: bool)
      requires token.start <= token.end <= |document| && nodes != []
      modifies this`nodes, this`errors
      ensures match scan(document[token.start..token.end])
              case NoNumber => !ok && nodes == old(nodes) && errors == old(errors) + [Error(token, NotANumber, -1)]
              case Number(r) => ok && nodes == Replaced(old(nodes), Real(r)) && errors == old(errors)
    {
      match scan(document[token.start..token.end])
      case NoNumber => ok := AddError(NotANumber, token, -1);
      case Number(value) =>
        SetCurrentValue(Real(value));
        ok := true;
    }

    /** The state after a step with this outcome: the current value was replaced, and no other value on the stack. */
    ghost predicate Result(ok: bool, r: Outcome, nodesBefore: seq<Value>, errorsBefore: seq<Error>)
      reads this
    {
      nodesBefore != [] && ok == r.ok && current == r.next && errors == errorsBefore + r.errors &&
      nodes == Replaced(nodesBefore, r.value)
    }

    /** The cases of readValue that need one token only. */
    method ReadScalar(token: Token) returns (ok: bool)
      requires InDocument() && nodes != [] && token.start <= token.end == current
      requires token.kind == StringToken ==> token.start + 2 <= token.end
      requires token.kind == NumberToken ==> token.start < token.end
      modifies this`nodes, this`errors
      ensures Result(ok, JsonParser.ReadScalar(Environment(), token, old(Top())), old(nodes), old(errors))
    {
      hide JsonParser.DecodeNumber, JsonParser.DecodeString, CStr, Replaced;
      ReplacedBySame(nodes);
      if token.kind == NumberToken {
        ok := DecodeNumber(token);
      } else if token.kind == StringToken {
        var decoded;
        ok, decoded := DecodeString(token);
        if ok { SetCurrentValue(Str(CStr(decoded))); }
      } else if token.kind == TrueToken {
        SetCurrentValue(Bool(true));
        ok := true;
      } else if token.kind == FalseToken {
        SetCurrentValue(Bool(false));
        ok := true;
      } else if token.kind == NullToken {
        SetCurrentValue(Null);
        ok := true;
      } else {
        ok := AddError(ValueExpected, token, -1);
      }
    }

    /** readValue: it ends on every document, with the stack as deep as before. */
    method ReadValue() returns (ok: bool)
      requires InDocument() && nodes != []
      modifies this`current, this`nodes, this`errors
      ensures InDocument()
      ensures Result(ok, JsonParser.ReadValue(Environment(), old(current), old(Top())), old(nodes), old(errors))
      decreases |document| - current, 2
    {
      hide ReadMembers, JsonParser.ReadArray, JsonParser.ReadScalar, JsonParser.SkipSpaces, Replaced;
      var token := SkipCommentTokens();
      if token.kind == ObjectBegin {
        ok := ReadObject();
      } else if token.kind == ArrayBegin {
        ok := ReadArray();
      } else {
        ok := ReadScalar(token);
      }
    }

    /** The child under this key becomes the current value; an absent one is inserted as null. */
    method Push(key: Key)
      requires nodes != [] && (Top().Arr? || Top().Obj?) && Sorted(Top().entries)
      modifies this`nodes
      ensures |nodes| == |old(nodes)| + 1 && nodes[..|old(nodes)| - 1] == old(nodes)[..|old(nodes)| - 1]
      ensures nodes[|old(nodes)| - 1] == WithEntries(old(Top()), Resolve(old(Top()).entries, key))
      ensures Top() == Get(old(Top()).entries, key)
    {
      hide Before, LowerBound;
      var entries := Resolve(Top().entries, key);
      AssignResolved(Top().entries, key, Null);
      SetCurrentValue(WithEntries(Top(), entries));
      nodes := nodes + [Get(entries, key)];
    }

    /** The current value is complete, and its parent becomes the current value again. */
    method Pop(key: Key, ghost before: Value)
      requires |nodes| >= 2 && (before.Arr? || before.Obj?) && Sorted(before.entries)
      requires nodes[|nodes| - 2] == WithEntries(before, Resolve(before.entries, key))
      modifies this`nodes
      ensures nodes == old(nodes)[..|old(nodes)| - 2] + [WithEntries(before, Assign(before.entries, key, old(Top())))]
    {
      hide Before, LowerBound;
      var child := Top();
      AssignResolved(before.entries, key, child);
      nodes := nodes[..|nodes| - 1];
      SetCurrentValue(WithEntries(Top(), Assign(Top().entries, key, child)));
    }

    /** Reads the value that belongs to this key of the current value. */
    method ReadChild(key: Key) returns (ok: bool)
      requires InDocument() && nodes != [] && (Top().Arr? || Top().Obj?) && Sorted(Top().entries)
      modifies this`current, this`nodes, this`errors
      ensures InDocument() && (ok ==> current > old(current))
      ensures var r := JsonParser.ReadValue(Environment(), old(current), Get(old(Top()).entries, key));
              ok == r.ok && current == r.next && errors == old(errors) + r.errors &&
              nodes == Replaced(old(nodes), WithEntries(old(Top()), Assign(old(Top()).entries, key, r.value)))
      decreases |document| - current, 3, 0
    {
      hide JsonParser.ReadValue, Before, LowerBound, Assign, Get, Sorted;
      ghost var before := Top();
      Push(key);
      ok := ReadValue();
      Pop(key, before);
    }

    /** readArray, behind the opening bracket. */
    method ReadArray() returns (ok: bool)
      requires InDocument() && nodes != []
      modifies this`current, this`nodes, this`errors
      ensures InDocument()
      ensures Result(ok, JsonParser.ReadArray(Environment(), old(current)), old(nodes), old(errors))
      decreases |document| - current, 4
    {
      hide JsonParser.ReadToken, JsonParser.SkipSpaces, ReadItems, Replaced;
      ghost var nodes0 := nodes;
      SetCurrentValue(Arr([]));
      SkipSpaces();
      if At(document, current) == 93 {
        var endArray := ReadToken();
        return true;
      }
      var index := 0;
      ghost var env := Environment();
      ghost var m: seq<Entry> := [];
      ghost var goal := ReadItems(env, current, m, 0);
      while true
        invariant InDocument() && nodes == Replaced(nodes0, Arr(m)) && index >= 0 && Sorted(m)
        invariant current >= old(current) && errors == old(errors)
        invariant goal == ReadItems(env, current, m, index)
        decreases |document| - current
      {
        ghost var before, at := m, current;
        var finished;
        finished, ok, m := ReadItem(index, m);
        ReplacedTwice(nodes0, Arr(before), if finished then ReadItems(env, at, before, index).value else Arr(m));
        if finished { return; }
        index := index + 1;
      }
    }

    /** One turn of the loop of readArray. */
    method ReadItem(index: nat, ghost m: seq<Entry>) returns (finished: bool, ok: bool, ghost m': seq<Entry>)
      requires InDocument() && nodes != [] && Top() == Arr(m) && Sorted(m)
      modifies this`current, this`nodes, this`errors
      ensures InDocument() && current >= old(current)
      ensures finished ==> Result(ok, ReadItems(Environment(), old(current), m, index), old(nodes), old(errors))
      ensures !finished ==>
        current > old(current) && Sorted(m') && nodes == Replaced(old(nodes), Arr(m')) && errors == old(errors) &&
        ReadItems(Environment(), old(current), m, index) == ReadItems(Environment(), current, m', index + 1)
      decreases |document| - current, 3, 1
    {
      hide JsonParser.ReadToken, JsonParser.ReadValue, SkipComments, Recovered, Assign, Get, Sorted, Replaced;
      finished, m' := true, m;
      ghost var v := JsonParser.ReadValue(Environment(), current, Get(m, Index(index)));
      ok := ReadChild(Index(index));
      AssignKeepsOrder(m, Index(index), v.value);
      m' := Assign(m, Index(index), v.value);
      if !ok {
        ok := RecoverFromError(ArrayEnd);
        return;
      }
      var token := ReadToken();
      token := SkipCommentsFrom(token);
      finished := token.kind == ArrayEnd;
    }

    /** readObject, behind the opening brace. */
    method ReadObject() returns (ok: bool)
      requires InDocument() && nodes != []
      modifies this`current, this`nodes, this`errors
      ensures InDocument()
      ensures Result(ok, ReadMembers(Environment(), old(current), [], true), old(nodes), old(errors))
      decreases |document| - current, 5
    {
      hide JsonParser.ReadToken, JsonParser.ReadMember, JsonParser.DecodeString, SkipComments, Recovered, Replaced;
      ghost var nodes0 := nodes;
      SetCurrentValue(Obj([]));
      var name: seq<byte> := [];
      ghost var env := Environment();
      ghost var m: seq<Entry> := [];
      ghost var goal := ReadMembers(env, current, m, true);
      while true
        invariant InDocument() && nodes == Replaced(old(nodes), Obj(m)) && Sorted(m)
        invariant current >= old(current) && errors == old(errors)
        invariant goal == ReadMembers(env, current, m, name == [])
        decreases |document| - current
      {
        var tokenName := ReadToken();
        tokenName := SkipCommentsFrom(tokenName);
        if tokenName.kind == ObjectEnd && name == [] { return true; }
        if tokenName.kind != StringToken {
          ok := AddErrorAndRecover(MissingBraceOrName, tokenName, ObjectEnd);
          return;
        }
        ok, name := DecodeString(tokenName);
        if !ok {
          ok := RecoverFromError(ObjectEnd);
          return;
        }
        var finished;
        ghost var before, at := m, current;
        finished, ok, m := ReadMember(name, m);
        ReplacedTwice(nodes0, Obj(before), if finished then JsonParser.ReadMember(env, at, before, name).value else Obj(m));
        if finished { return; }
      }
    }

    /** The part of the loop of readObject behind a name. */
    method ReadMember(name: seq<byte>, ghost m: seq<Entry>) returns (finished: bool, ok: bool, ghost m': seq<Entry>)
      requires InDocument() && nodes != [] && Top() == Obj(m) && Sorted(m)
      modifies this`current, this`nodes, this`errors
      ensures InDocument() && current >= old(current)
      ensures finished ==>
        Result(ok, JsonParser.ReadMember(Environment(), old(current), m, name), old(nodes), old(errors))
      ensures !finished ==>
        current > old(current) && Sorted(m') && nodes == Replaced(old(nodes), Obj(m')) &&
        errors == old(errors) && JsonParser.ReadMember(Environment(), old(current), m, name) ==
                                 ReadMembers(Environment(), current, m', name == [])
      decreases |document| - current, 4
    {
      hide JsonParser.ReadToken, JsonParser.ReadValue, SkipComments, Recovered, Assign, Get, Sorted, ReadMembers;
      finished, m' := true, m;
      ReplacedBySame(nodes);
      var colon := ReadToken();
      if colon.kind != MemberSeparator {
        ok := AddErrorAndRecover(MissingColon, colon, ObjectEnd);
        return;
      }
      var key := Name(CStr(name));
      ghost var v := JsonParser.ReadValue(Environment(), current, Get(m, key));
      ok := ReadChild(key);
      AssignKeepsOrder(m, key, v.value);
      m' := Assign(m, key, v.value);
      if !ok {
        ok := RecoverFromError(ObjectEnd);
        return;
      }
      var comma := ReadToken();
      if comma.kind != ObjectEnd && comma.kind != ArraySeparator && comma.kind != CommentToken {
        ok := AddErrorAndRecover(MissingCommaOrBrace, comma, ObjectEnd);
        return;
      }
      comma := SkipCommentsFrom(comma);
      finished := comma.kind == ObjectEnd;
    }

    /** The first half of parse: the state is reset, and the root is read. */
    method ReadRoot(text: seq<byte>, root: Value) returns (ok: bool, value: Value)
      modifies this
      ensures document == text && InDocument() && nodes == [value]
      ensures Outcome(ok, value, current, errors) == JsonParser.ReadValue(Environment(), 0, root)
    {
      hide JsonParser.ReadValue;
      document := text;
      current := 0;
      errors := [];
      nodes := [];
      nodes := nodes + [root];
      ok := ReadValue();
      value := nodes[0];
    }

    /** parse: it ends on every document, with the root alone on the stack. */
    method Parse(text: seq<byte>, root: Value) returns (ok: bool, value: Value)
      modifies this
      ensures document == text && InDocument() && nodes == [value]
      ensures Outcome(ok, value, current, errors) == JsonParser.Parse(Environment(), strictRoot, root)
    {
      hide JsonParser.ReadValue, ValueToken;
      ok, value := ReadRoot(text, root);
      var token := SkipCommentTokens();
      if strictRoot && !value.Arr? && !value.Obj? {
        ok := AddError(RootExpected, Token(ErrorToken, 0, |document|), -1);
      }
    }
  }

  /** The same kind of container with other entries. */
  function WithEntries(v: Value, m: seq<Entry>): Value
    requires v.Arr? || v.Obj?
  {
    if v.Arr? then Arr(m) else Obj(m)
  }

  lemma {:induction false} BehindBehind(a: seq<byte>, b: seq<byte>, d: Decoded)
    ensures d.Behind(b).Behind(a) == d.Behind(a + b)
  {
    if d.Decoded? { assert a + (b + d.text) == a + b + d.text; }
  }
}
