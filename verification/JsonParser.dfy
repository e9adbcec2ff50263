/** What the JSON reader computes: tokens, decoded strings and numbers, values and errors as functions of the document. */
module JsonParser {
  import opened Bytes
  import opened JsonUnicode
  import opened JsonValue

  const QUOTE: byte := 34
  const BACKSLASH: byte := 92

  datatype TokenType =
    | EndOfStream | ObjectBegin | ObjectEnd | ArrayBegin | ArrayEnd | StringToken | NumberToken
    | TrueToken | FalseToken | NullToken | ArraySeparator | MemberSeparator | CommentToken | ErrorToken

  datatype Token = Token(kind: TokenType, start: nat, end: nat)

  datatype Message =
    | ValueExpected | MissingColon | MissingCommaOrBrace | MissingBraceOrName | MissingCommaOrBracket
    | NotANumber | EmptyEscape | BadEscape | SixCharactersExpected | SecondHalfExpected
    | FourDigitsExpected | HexDigitExpected | RootExpected

  /** `extra` is -1 when there is no second location. */
  datatype Error = Error(token: Token, message: Message, extra: int)

  /** What sscanf makes of a numeral with %lf. */
  datatype Scanned = NoNumber | Number(value: real)

  /** The document and the settings a reader works with. */
  datatype Env = Env(doc: seq<byte>, allowComments: bool, scan: seq<byte> -> Scanned)

  // ---- Tokens ----

  predicate IsSpace(c: byte) { c == 32 || c == 9 || c == 13 || c == 10 }

  function SkipSpaces(d: seq<byte>, p: nat): (q: nat)
    requires p <= |d|
    ensures p <= q <= |d| && (q < |d| ==> !IsSpace(d[q]))
    decreases |d| - p
  {
    if p < |d| && IsSpace(d[p]) then SkipSpaces(d, p + 1) else p
  }

  /** The character at `p`; the terminating zero at the end. */
  function At(d: seq<byte>, p: nat): byte
    requires p <= |d|
  { if p < |d| then d[p] else 0 }

  predicate Matches(d: seq<byte>, p: nat, word: seq<byte>)
    requires p <= |d|
  { |d| - p >= |word| && d[p..p + |word|] == word }

  predicate NumberCharacter(c: byte) { IsDigit(c) || c == 46 || c == 101 || c == 69 || c == 43 || c == 45 }

  function SkipNumber(d: seq<byte>, p: nat): (q: nat)
    requires p <= |d|
    ensures p <= q <= |d|
    decreases |d| - p
  {
    if p < |d| && NumberCharacter(d[p]) then SkipNumber(d, p + 1) else p
  }

  /** Where a lexeme ends, and whether it is complete. */
  datatype Scan = Scan(end: nat, ok: bool)

  function SkipString(d: seq<byte>, p: nat): (r: Scan)
    requires p <= |d|
    ensures p <= r.end <= |d| && (r.ok ==> p < r.end)
    decreases |d| - p
  {
    if p == |d| then Scan(p, false)
    else if d[p] == QUOTE then Scan(p + 1, true)
    else if d[p] != BACKSLASH then SkipString(d, p + 1)
    else if p + 1 == |d| then Scan(p + 1, false)
    else SkipString(d, p + 2)
  }

  function SkipBlockComment(d: seq<byte>, p: nat): (r: Scan)
    requires p <= |d|
    ensures p <= r.end <= |d|
    decreases |d| - p
  {
    if p == |d| then Scan(p, false)
    else if d[p] == 42 && At(d, p + 1) == 47 then Scan(p + 2, true)
    else SkipBlockComment(d, p + 1)
  }

  function SkipLineComment(d: seq<byte>, p: nat): (q: nat)
    requires p <= |d|
    ensures p <= q <= |d|
    decreases |d| - p
  {
    if p == |d| then p
    else if d[p] == 13 || d[p] == 10 then p + 1
    else SkipLineComment(d, p + 1)
  }

  /** readComment, behind the slash. */
  function SkipComment(d: seq<byte>, p: nat): (r: Scan)
    requires p <= |d|
    ensures p <= r.end <= |d|
  {
    if p == |d| then Scan(p, false)
    else if d[p] == 42 then SkipBlockComment(d, p + 1)
    else if d[p] == 47 then Scan(SkipLineComment(d, p + 1), true)
    else Scan(p + 1, false)
  }

  const RUE: seq<byte> := [114, 117, 101]
  const ALSE: seq<byte> := [97, 108, 115, 101]
  const ULL: seq<byte> := [117, 108, 108]

  function WordToken(d: seq<byte>, start: nat, word: seq<byte>, kind: TokenType): (t: Token)
    requires start < |d|
  {
    if Matches(d, start + 1, word) then Token(kind, start, start + 1 + |word|) else Token(ErrorToken, start, start + 1)
  }

  function ScanToken(start: nat, r: Scan, kind: TokenType): Token {
    Token(if r.ok then kind else ErrorToken, start, r.end)
  }

  /** The least lengths of some tokens. */
  predicate Solid(t: Token) {
    t.start <= t.end && (t.kind == StringToken ==> t.start + 2 <= t.end) && (t.kind == NumberToken ==> t.start < t.end)
  }

  /** The token whose first character stands at `start`. */
  function TokenAt(d: seq<byte>, start: nat): (t: Token)
    requires start <= |d|
    ensures t.start == start <= t.end <= |d|
    ensures start == |d| ==> t.kind == EndOfStream
    ensures start < |d| ==> start < t.end
    ensures Solid(t)
  {
    if start == |d| then Token(EndOfStream, start, start)
    else
      var c := d[start];
      var q := start + 1;
      if c == 123 then Token(ObjectBegin, start, q)
      else if c == 125 then Token(ObjectEnd, start, q)
      else if c == 91 then Token(ArrayBegin, start, q)
      else if c == 93 then Token(ArrayEnd, start, q)
      else if c == QUOTE then ScanToken(start, SkipString(d, q), StringToken)
      else if c == 47 then ScanToken(start, SkipComment(d, q), CommentToken)
      else if IsDigit(c) || c == MINUS then Token(NumberToken, start, SkipNumber(d, q))
      else if c == 116 then WordToken(d, start, RUE, TrueToken)
      else if c == 102 then WordToken(d, start, ALSE, FalseToken)
      else if c == 110 then WordToken(d, start, ULL, NullToken)
      else if c == 44 then Token(ArraySeparator, start, q)
      else if c == 58 then Token(MemberSeparator, start, q)
      else if c == 0 then Token(EndOfStream, start, q)
      else Token(ErrorToken, start, q)
  }

  /** readToken: the reader stands at the end of the token afterwards. */
  function ReadToken(d: seq<byte>, p: nat): (t: Token)
    requires p <= |d|
    ensures p <= t.start <= t.end <= |d|
    ensures t.end == p ==> t.kind == EndOfStream && p == |d|
    ensures Solid(t)
  {
    TokenAt(d, SkipSpaces(d, p))
  }

  /** The first token from `t` on that is not a comment. */
  function SkipComments(d: seq<byte>, t: Token): (r: Token)
    requires Solid(t) && t.end <= |d|
    ensures r.kind != CommentToken && t.end <= r.end <= |d| && Solid(r)
    ensures t.kind != CommentToken ==> r == t
    decreases |d| - t.end, if t.kind == CommentToken then 1 else 0
  {
    if t.kind == CommentToken then SkipComments(d, ReadToken(d, t.end)) else t
  }

  /** skipCommentTokens. */
  function ValueToken(env: Env, p: nat): (t: Token)
    requires p <= |env.doc|
    ensures p <= t.end <= |env.doc| && Solid(t)
    ensures t.end == p ==> t.kind == EndOfStream
  {
    var t := ReadToken(env.doc, p);
    if env.allowComments then SkipComments(env.doc, t) else t
  }

  /** recoverFromError: where the reader stands behind the next token of this type, or the next end of stream. */
  function Recovered(d: seq<byte>, p: nat, kind: TokenType): (q: nat)
    requires p <= |d|
    ensures p <= q <= |d|
    decreases |d| - p
  {
    var t := ReadToken(d, p);
    if t.kind == kind || t.kind == EndOfStream then t.end else Recovered(d, t.end, kind)
  }

  // ---- Strings ----

  datatype Decoded = Decoded(text: seq<byte>) | Undecodable(message: Message, extra: nat) {
    function Behind(piece: seq<byte>): Decoded {
      if Decoded? then Decoded(piece + text) else this
    }
  }

  datatype CodeUnit = CodeUnit(value: nat, next: nat) | BadUnit(message: Message, extra: nat)

  /** The loop of decodeUnicodeEscapeSequence from digit number `k` on. */
  function HexDigits(d: seq<byte>, p: nat, k: nat, value: nat): (r: CodeUnit)
    requires k <= 4 && p + (4 - k) <= |d|
    ensures r.CodeUnit? ==> r.next == p + (4 - k)
    decreases 4 - k
  {
    if k == 4 then CodeUnit(value, p)
    else if HexDigit(d[p]) < 0 then BadUnit(HexDigitExpected, p + 1)
    else HexDigits(d, p + 1, k + 1, value * 16 + HexDigit(d[p]))
  }

  function EscapeSequence(d: seq<byte>, p: nat, end: nat): (r: CodeUnit)
    requires p <= end <= |d|
    ensures r.CodeUnit? ==> r.next == p + 4 <= end
  {
    if end - p < 4 then BadUnit(FourDigitsExpected, p) else HexDigits(d, p, 0, 0)
  }

  /** decodeUnicodeCodePoint. */
  function CodePoint(d: seq<byte>, p: nat, end: nat): (r: CodeUnit)
    requires p <= end <= |d|
    ensures r.CodeUnit? ==> p < r.next <= end
  {
    var high := EscapeSequence(d, p, end);
    if high.BadUnit? || !(0xD800 <= high.value <= 0xDBFF) then high
    else
      var q := high.next;
      if end - q < 6 then BadUnit(SixCharactersExpected, q)
      else if d[q] != BACKSLASH then BadUnit(SecondHalfExpected, q + 1)
      else if d[q + 1] != 117 then BadUnit(SecondHalfExpected, q + 2)
      else
        var low := EscapeSequence(d, q + 2, end);
        if low.BadUnit? then low else CodeUnit(CombinePair(high.value, low.value), low.next)
  }

  /** What the character behind a backslash stands for, -1 when it is not one of the short escapes. */
  function ShortEscape(e: byte): (c: int)
    ensures -1 <= c < 256
  {
    if e == QUOTE then QUOTE
    else if e == 47 then 47
    else if e == BACKSLASH then BACKSLASH
    else if e == 98 then 8
    else if e == 102 then 12
    else if e == 110 then 10
    else if e == 114 then 13
    else if e == 116 then 9
    else -1
  }

  /** The loop of decodeString from `p` to the closing quote at `end`. */
  function DecodeFrom(d: seq<byte>, p: nat, end: nat): Decoded
    requires p <= end <= |d|
    decreases end - p
  {
    if p == end || d[p] == QUOTE then Decoded([])
    else if d[p] != BACKSLASH then DecodeFrom(d, p + 1, end).Behind([d[p]])
    else if p + 1 == end then Undecodable(EmptyEscape, p + 1)
    else if d[p + 1] == 117 then
      var r := CodePoint(d, p + 2, end);
      if r.BadUnit? then Undecodable(r.message, r.extra)
      else DecodeFrom(d, r.next, end).Behind(CodePointToUtf8(r.value))
    else
      var c := ShortEscape(d[p + 1]);
      if c < 0 then Undecodable(BadEscape, p + 2) else DecodeFrom(d, p + 2, end).Behind([c as byte])
  }

  function DecodeString(d: seq<byte>, t: Token): Decoded
    requires t.start + 2 <= t.end <= |d|
  {
    DecodeFrom(d, t.start + 1, t.end - 1)
  }

  // ---- Numbers ----

  datatype Numeric = Exact(n: int) | Inexact | Garbage

  /** A character of a double: a point, an exponent, or a sign that is not in front. */
  predicate DoubleCharacter(lexeme: seq<byte>, i: nat)
    requires i < |lexeme|
  {
    var c := lexeme[i];
    c == 46 || c == 101 || c == 69 || c == 43 || (c == MINUS && i > 0)
  }

  predicate LooksDouble(lexeme: seq<byte>) { exists i :: 0 <= i < |lexeme| && DoubleCharacter(lexeme, i) }

  /** The digit loop of decodeNumber. */
  function IntegerFrom(digits: seq<byte>, value: nat, threshold: nat): (r: Numeric)
    ensures r.Exact? ==> r.n >= 0
  {
    if digits == [] then Exact(value)
    else if !IsDigit(digits[0]) then Garbage
    else if value >= threshold then Inexact
    else IntegerFrom(digits[1..], value * 10 + (digits[0] - ZERO), threshold)
  }

  const NEGATIVE_THRESHOLD := 214748364
  const POSITIVE_THRESHOLD := 429496729

  /** decodeNumber up to the decision between an integer, a double and an error. */
  function Integer(lexeme: seq<byte>): Numeric {
    if LooksDouble(lexeme) then Inexact
    else if lexeme != [] && lexeme[0] == MINUS then
      var r := IntegerFrom(lexeme[1..], 0, NEGATIVE_THRESHOLD);
      if r.Exact? then Exact(-r.n) else r
    else IntegerFrom(lexeme, 0, POSITIVE_THRESHOLD)
  }

  function IntegerValue(n: int): Value { if n <= MAX_INT then Int(n) else UInt(n) }

  // ---- Values ----

  /** The outcome of readValue: whether it succeeded, what the current value became, where the reader stands, and
      the errors it added: none when it succeeded, and one when it failed, since recovery reads no more values. */
  datatype Outcome = Outcome(ok: bool, value: Value, next: nat, errors: seq<Error>)

  function Failed(value: Value, next: nat, t: Token, message: Message): Outcome {
    Outcome(false, value, next, [Error(t, message, -1)])
  }

  /** addErrorAndRecover. */
  function FailedAndRecovered(env: Env, value: Value, t: Token, message: Message, kind: TokenType): (r: Outcome)
    requires t.end <= |env.doc|
    ensures t.end <= r.next <= |env.doc| && !r.ok && |r.errors| == 1
  {
    Failed(value, Recovered(env.doc, t.end, kind), t, message)
  }

  function DecodeNumber(env: Env, t: Token, old_: Value): (r: Outcome)
    requires t.start <= t.end <= |env.doc|
    ensures r.next == t.end && |r.errors| == if r.ok then 0 else 1
  {
    var lexeme := env.doc[t.start..t.end];
    match Integer(lexeme)
    case Exact(n) => Outcome(true, IntegerValue(n), t.end, [])
    case Garbage => Failed(old_, t.end, t, NotANumber)
    case Inexact =>
      match env.scan(lexeme)
      case NoNumber => Failed(old_, t.end, t, NotANumber)
      case Number(r) => Outcome(true, Real(r), t.end, [])
  }

  /** The cases of readValue that need one token only. */
  function ReadScalar(env: Env, t: Token, old_: Value): (r: Outcome)
    requires t.start <= t.end <= |env.doc| && (t.kind == StringToken ==> t.start + 2 <= t.end)
    ensures r.next == t.end && |r.errors| == if r.ok then 0 else 1
  {
    match t.kind
    case NumberToken => DecodeNumber(env, t, old_)
    case StringToken => (
      match DecodeString(env.doc, t)
      case Decoded(text) => Outcome(true, Str(CStr(text)), t.end, [])
      case Undecodable(message, extra) => Outcome(false, old_, t.end, [Error(t, message, extra)])
      )
    case TrueToken => Outcome(true, Bool(true), t.end, [])
    case FalseToken => Outcome(true, Bool(false), t.end, [])
    case NullToken => Outcome(true, Null, t.end, [])
    case _ => Failed(old_, t.end, t, ValueExpected)
  }

  /** readValue at `p`, when the current value is `old_`. */
  function ReadValue(env: Env, p: nat, old_: Value): (r: Outcome)
    requires p <= |env.doc|
    ensures p <= r.next <= |env.doc| && (r.ok ==> p < r.next)
    ensures |r.errors| == if r.ok then 0 else 1
    decreases |env.doc| - p, 1
  {
    var t := ValueToken(env, p);
    match t.kind
    case ObjectBegin => ReadMembers(env, t.end, [], true)
    case ArrayBegin => ReadArray(env, t.end)
    case _ => ReadScalar(env, t, old_)
  }

  /** readArray, behind the opening bracket. */
  function ReadArray(env: Env, p: nat): (r: Outcome)
    requires p <= |env.doc|
    ensures p <= r.next <= |env.doc| && (r.ok ==> p < r.next)
    ensures |r.errors| == if r.ok then 0 else 1
    decreases |env.doc| - p, 3
  {
    var q := SkipSpaces(env.doc, p);
    if At(env.doc, q) == 93 then Outcome(true, Arr([]), ReadToken(env.doc, q).end, [])
    else ReadItems(env, q, [], 0)
  }

  /** The loop of readArray: `m` holds the elements in front of number `index`. */
  function ReadItems(env: Env, p: nat, m: seq<Entry>, index: nat): (r: Outcome)
    requires p <= |env.doc|
    ensures p <= r.next <= |env.doc| && (r.ok ==> p < r.next)
    ensures |r.errors| == if r.ok then 0 else 1
    decreases |env.doc| - p, 2
  {
    var v := ReadValue(env, p, Get(m, Index(index)));
    var m' := Assign(m, Index(index), v.value);
    if !v.ok then v.(value := Arr(m'), next := Recovered(env.doc, v.next, ArrayEnd))
    else
      var t := SkipComments(env.doc, ReadToken(env.doc, v.next));
      if t.kind == ArrayEnd then Outcome(true, Arr(m'), t.end, []) else ReadItems(env, t.end, m', index + 1)
  }

  /** The loop of readObject: `m` holds the members so far; `unnamed` says that the last name was empty, or that
      there was none yet. */
  function ReadMembers(env: Env, p: nat, m: seq<Entry>, unnamed: bool): (r: Outcome)
    requires p <= |env.doc|
    ensures p <= r.next <= |env.doc| && (r.ok ==> p < r.next)
    ensures |r.errors| == if r.ok then 0 else 1
    decreases |env.doc| - p, 2
  {
    var t := SkipComments(env.doc, ReadToken(env.doc, p));
    if t.kind == ObjectEnd && unnamed then Outcome(true, Obj(m), t.end, [])
    else if t.kind != StringToken then FailedAndRecovered(env, Obj(m), t, MissingBraceOrName, ObjectEnd)
    else
      match DecodeString(env.doc, t)
      case Undecodable(message, extra) =>
        Outcome(false, Obj(m), Recovered(env.doc, t.end, ObjectEnd), [Error(t, message, extra)])
      case Decoded(name) => ReadMember(env, t.end, m, name)
  }

  /** The part of the loop of readObject behind the name of a member. */
  function ReadMember(env: Env, p: nat, m: seq<Entry>, name: seq<byte>): (r: Outcome)
    requires p <= |env.doc|
    ensures p <= r.next <= |env.doc| && (r.ok ==> p < r.next)
    ensures |r.errors| == if r.ok then 0 else 1
    decreases |env.doc| - p, 1
  {
    var colon := ReadToken(env.doc, p);
    if colon.kind != MemberSeparator then FailedAndRecovered(env, Obj(m), colon, MissingColon, ObjectEnd)
    else
      var key := Name(CStr(name));
      var v := ReadValue(env, colon.end, Get(m, key));
      var m' := Assign(m, key, v.value);
      if !v.ok then v.(value := Obj(m'), next := Recovered(env.doc, v.next, ObjectEnd))
      else ReadMemberEnd(env, v.next, m', name == [])
  }

  /** The part of the loop of readObject behind the value of a member, and the rest of the loop. */
  function ReadMemberEnd(env: Env, p: nat, m: seq<Entry>, unnamed: bool): (r: Outcome)
    requires p <= |env.doc|
    ensures p <= r.next <= |env.doc| && (r.ok ==> p < r.next)
    ensures |r.errors| == if r.ok then 0 else 1
    decreases |env.doc| - p, 3
  {
    var first := ReadToken(env.doc, p);
    if first.kind != ObjectEnd && first.kind != ArraySeparator && first.kind != CommentToken then
      FailedAndRecovered(env, Obj(m), first, MissingCommaOrBrace, ObjectEnd)
    else
      var t := SkipComments(env.doc, first);
      if t.kind == ObjectEnd then Outcome(true, Obj(m), t.end, [])
      else ReadMembers(env, t.end, m, unnamed)
  }

  /** parse: the root is read, and with a strict root it must be an array or an object. Success is the absence of
      errors. */
  function Parse(env: Env, strictRoot: bool, root: Value): (r: Outcome)
    ensures r.next <= |env.doc| && (r.ok <==> r.errors == []) && |r.errors| <= 2
  {
    var v := ReadValue(env, 0, root);
    var t := ValueToken(env, v.next);
    if strictRoot && !v.value.Arr? && !v.value.Obj? then
      Outcome(false, v.value, t.end, v.errors + [Error(Token(ErrorToken, 0, |env.doc|), RootExpected, -1)])
    else v.(next := t.end)
  }
}
