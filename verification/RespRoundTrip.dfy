/** Writing a reply in the Redis serialization protocol and reading it back. */
module RespRoundTrip {
  import opened Bytes
  import opened Resp
  import opened RespStream

  /** A reply as it travels. Nil has two spellings: a null array, and a bulk string of any negative length. */
  datatype Wire =
    | WStatus(text: seq<byte>)
    | WError(text: seq<byte>)
    | WInteger(value: int)
    | WBulk(bytes: seq<byte>)
    | WNilBulk(length: int)
    | WNilArray
    | WArray(elements: seq<Wire>)

  const CRLF: seq<byte> := [CR, LF]

  function Encode(w: Wire): seq<byte> {
    match w
    case WStatus(text) => [43] + text + CRLF
    case WError(text) => [45] + text + CRLF
    case WInteger(v) => [58] + SignedDecimal(v) + CRLF
    case WBulk(bytes) => [36] + Decimal(|bytes|) + CRLF + bytes + CRLF
    case WNilBulk(length) => [36] + SignedDecimal(length) + CRLF
    case WNilArray => [42] + SignedDecimal(-1) + CRLF
    case WArray(elements) => [42] + Decimal(|elements|) + CRLF + EncodeAll(elements)
  }

  function EncodeAll(ws: seq<Wire>): seq<byte> {
    if ws == [] then [] else Encode(ws[0]) + EncodeAll(ws[1..])
  }

  function Meaning(w: Wire): Reply {
    match w
    case WStatus(text) => Status(text)
    case WError(text) => Error(text)
    case WInteger(v) => Integer(v)
    case WBulk(bytes) => Bulk(bytes)
    case WNilBulk(_) => Nil
    case WNilArray => Nil
    case WArray(elements) => Array(Meanings(elements))
  }

  function Meanings(ws: seq<Wire>): (r: seq<Reply>)
    ensures |r| == |ws|
  {
    if ws == [] then [] else [Meaning(ws[0])] + Meanings(ws[1..])
  }

  /** Status and error lines must not contain the line end themselves, and a nil bulk string has a negative length. */
  predicate Lines(w: Wire) {
    match w
    case WStatus(text) => FindNewline(text) < 0
    case WError(text) => FindNewline(text) < 0
    case WNilBulk(length) => length < 0
    case WArray(elements) => AllLines(elements)
    case _ => true
  }

  predicate AllLines(ws: seq<Wire>) {
    ws == [] || (Lines(ws[0]) && AllLines(ws[1..]))
  }

  /** How many array items lie inside one another; the null array counts, being announced as an array. */
  function Depth(w: Wire): nat {
    match w
    case WArray(elements) => 1 + MaxDepth(elements)
    case WNilArray => 1
    case _ => 0
  }

  function MaxDepth(ws: seq<Wire>): nat {
    if ws == [] then 0
    else if Depth(ws[0]) >= MaxDepth(ws[1..]) then Depth(ws[0]) else MaxDepth(ws[1..])
  }

  // ---- Numbers and lines ----

  lemma {:induction false} NewlineAfter(line: seq<byte>, x: seq<byte>)
    requires FindNewline(line) < 0
    ensures FindNewline(line + CRLF + x) == |line|
  {
    var s := line + CRLF + x;
    if line != [] {
      assert s[1..] == line[1..] + CRLF + x;
      if |line| >= 2 { assert FindNewline(line[1..]) < 0; }
      NewlineAfter(line[1..], x);
      assert !(s[0] == CR && s[1] == LF) by {
        if |line| == 1 { assert s[1] == CR; }
      }
    }
  }

  lemma {:induction false} NoNewline(s: seq<byte>)
    requires forall i :: 0 <= i < |s| ==> s[i] != CR
    ensures FindNewline(s) < 0
  {
    if |s| >= 2 { NoNewline(s[1..]); }
  }

  lemma {:induction false} ReadDigitsValue(s: seq<byte>, v: nat)
    requires forall i :: 0 <= i < |s| ==> IsDigit(s[i])
    ensures ReadDigits(s, v) == DigitsValue(s, v)
  {
    if s != [] { ReadDigitsValue(s[1..], v * 10 + (s[0] - ZERO)); }
  }

  /** Every integer is read back from its numeral. */
  lemma {:induction false} ReadsNumeral(v: int)
    ensures ReadLong(SignedDecimal(v)) == v
    ensures FindNewline(SignedDecimal(v)) < 0
  {
    var s := SignedDecimal(v);
    if v < 0 {
      DecimalValue(-v);
      ReadDigitsValue(Decimal(-v), 0);
      assert s[1..] == Decimal(-v);
    } else {
      DecimalValue(v);
      ReadDigitsValue(s, 0);
      assert IsDigit(s[0]);
    }
    forall i | 0 <= i < |s| ensures s[i] != CR {
      if v < 0 && i > 0 { assert s[i] == Decimal(-v)[i - 1]; }
    }
    NoNewline(s);
  }

  /** What any line reads as: digits with a sign or without one are the number, up to the first carriage return; with
      anything else in front of that the line reads as -1, whatever its sign. */
  lemma {:induction false} NumberLine(line: seq<byte>, body: seq<byte>, digits: nat)
    requires body == if line != [] && (line[0] == 43 || line[0] == 45) then line[1..] else line
    requires digits <= |body| && (digits < |body| ==> body[digits] == CR)
    requires forall i :: 0 <= i < digits ==> body[i] != CR
    ensures if exists i :: 0 <= i < digits && !(48 <= body[i] <= 57) then ReadLong(line) == -1
            else ReadLong(line) == DigitsValue(body[..digits], 0) * if line != [] && line[0] == 45 then -1 else 1
  {
    ReadDigitsUpTo(body, digits, 0);
  }

  lemma {:induction false} ReadDigitsUpTo(s: seq<byte>, n: nat, v: nat)
    requires n <= |s| && (n < |s| ==> s[n] == CR) && forall i :: 0 <= i < n ==> s[i] != CR
    ensures if exists i :: 0 <= i < n && !IsDigit(s[i]) then ReadDigits(s, v) == -1
            else ReadDigits(s, v) == DigitsValue(s[..n], v)
    decreases n
  {
    if n > 0 && IsDigit(s[0]) {
      ReadDigitsUpTo(s[1..], n - 1, v * 10 + (s[0] - ZERO));
      assert s[..n][1..] == s[1..][..n - 1];
      if i :| 0 <= i < n && !IsDigit(s[i]) { assert s[1..][i - 1] == s[i]; }
    }
  }

  /** An item that begins with a byte of no type is an error, which names the byte. */
  lemma {:induction false} UnknownTypeFails(r: Reader, b: byte, rest: seq<byte>)
    requires Valid(r) && r.error.NoError? && r.stack == [] && Unread(r) == []
    requires b != 43 && b != 45 && b != 58 && b != 36 && b != 42
    ensures var (r', g) := GetReply(Feed(r, [b] + rest));
            g == Nothing && r' == Reader(Failed(ProtocolByte(b)), [], 0, [], Unset)
  {
    var fed := Feed(r, [b] + rest);
    assert Unread(fed) == Unread(r) + ([b] + rest) == [b] + rest;
    assert Item([RootTask], r.tree, [b] + rest) == Bad(ProtocolByte(b));
  }

  /** A header line in front of other bytes is found, and reads as its number. */
  lemma {:induction false} Header(v: int, x: seq<byte>)
    ensures var u := SignedDecimal(v) + CRLF + x; var n := FindNewline(u);
            n == |SignedDecimal(v)| && ReadLong(u[..n]) == v && u[n + 2..] == x
  {
    ReadsNumeral(v);
    NewlineAfter(SignedDecimal(v), x);
    var u := SignedDecimal(v) + CRLF + x;
    assert u[..|SignedDecimal(v)|] == SignedDecimal(v);
  }

  // ---- Writing into the tree ----

  ghost predicate Reaches(tree: Reply, path: seq<int>)
    decreases |path|
  {
    path == [] || (tree.Array? && 0 <= path[0] < |tree.elements| && Reaches(tree.elements[path[0]], path[1..]))
  }

  lemma {:induction false} PutReaches(tree: Reply, path: seq<int>, elements: seq<Reply>, i: int)
    requires Reaches(tree, path) && 0 <= i < |elements|
    ensures Reaches(Put(tree, path, Array(elements)), path + [i])
    decreases |path|
  {
    if path == [] {
      assert ([] + [i])[1..] == [];
    } else {
      assert (path + [i])[1..] == path[1..] + [i];
      PutReaches(tree.elements[path[0]], path[1..], elements, i);
    }
  }

  lemma {:induction false} PutPut(tree: Reply, path: seq<int>, elements: seq<Reply>, i: int, v: Reply)
    requires Reaches(tree, path) && 0 <= i < |elements|
    ensures Put(Put(tree, path, Array(elements)), path + [i], v) == Put(tree, path, Array(elements[i := v]))
    decreases |path|
  {
    if path == [] {
      assert ([] + [i])[1..] == [];
    } else {
      assert (path + [i])[1..] == path[1..] + [i];
      PutPut(tree.elements[path[0]], path[1..], elements, i, v);
      assert tree.elements[path[0] := Put(tree.elements[path[0]], path[1..], Array(elements))]
                 [path[0] := Put(tree.elements[path[0]], path[1..], Array(elements[i := v]))] ==
             tree.elements[path[0] := Put(tree.elements[path[0]], path[1..], Array(elements[i := v]))];
    }
  }

  // ---- Reading one item ----

  /** Only the index of the top task decides where reading goes on and where its value goes. */
  lemma {:induction false} TopDetails(stack: seq<Task>, t: Task)
    requires stack != [] && t.idx == Top(stack).idx
    ensures NextTask(WithTop(stack, t)) == NextTask(stack) && Path(WithTop(stack, t)) == Path(stack)
  {
    assert WithTop(stack, t)[..|stack| - 1] == stack[..|stack| - 1];
  }

  lemma {:induction false} TypeByte(stack: seq<Task>, tree: Reply, b: byte, rest: seq<byte>)
    requires stack != [] && Top(stack).taskType.Unknown? && !TypeOf(b).Unknown?
    ensures Item(stack, tree, [b] + rest) ==
            After(TypedItem(WithTop(stack, Top(stack).(taskType := TypeOf(b))), tree, rest), 1)
  {
    assert ([b] + rest)[1..] == rest;
  }

  lemma {:induction false} LineLeaf(typed: seq<Task>, tree: Reply, line: seq<byte>, x: seq<byte>)
    requires typed != [] && FindNewline(line) < 0
    ensures LineItem(typed, tree, line + CRLF + x) ==
            Finish(typed, tree, if Top(typed).taskType.IntegerTask? then Integer(ReadLong(line))
                                else if Top(typed).taskType.ErrorTask? then Error(line) else Status(line), |line| + 2)
  {
    NewlineAfter(line, x);
    assert (line + CRLF + x)[..|line|] == line;
  }

  lemma {:induction false} BulkLeaf(typed: seq<Task>, tree: Reply, bytes: seq<byte>, x: seq<byte>)
    requires typed != []
    ensures BulkItem(typed, tree, SignedDecimal(|bytes|) + CRLF + (bytes + CRLF + x)) ==
            Finish(typed, tree, Bulk(bytes), |SignedDecimal(|bytes|)| + 2 + |bytes| + 2)
  {
    hide FindNewline, ReadLong, NextTask, Put, Path, SignedDecimal;
    Header(|bytes|, bytes + CRLF + x);
    var u := SignedDecimal(|bytes|) + CRLF + (bytes + CRLF + x);
    var n := |SignedDecimal(|bytes|)|;
    assert u[n + 2..n + 2 + |bytes|] == u[n + 2..][..|bytes|] == bytes;
  }

  /** A header that announces nothing: a nil, or an array without elements. */
  lemma {:induction false} EmptyLeaf(typed: seq<Task>, tree: Reply, v: int, x: seq<byte>)
    requires typed != [] && v <= 0
    ensures v < 0 ==> BulkItem(typed, tree, SignedDecimal(v) + CRLF + x) == Finish(typed, tree, Nil, |SignedDecimal(v)| + 2)
    ensures |typed| <= 8 && -1 <= v ==>
      ArrayItem(typed, tree, SignedDecimal(v) + CRLF + x) ==
      Finish(typed, tree, if v < 0 then Nil else Array([]), |SignedDecimal(v)| + 2)
  {
    hide FindNewline, ReadLong, NextTask, Put, Path, SignedDecimal;
    Header(v, x);
  }

  /** The bytes behind the type byte. */
  function Body(w: Wire): seq<byte> {
    TypeKnown(w);
    Encode(w)[1..]
  }

  lemma {:induction false} TypedLeaf(typed: seq<Task>, tree: Reply, w: Wire, x: seq<byte>)
    requires typed != [] && |Encode(w)| > 0 && Top(typed).taskType == TypeOf(Encode(w)[0]) && Lines(w)
    requires w.WArray? ==> w.elements == []
    requires |typed| + Depth(w) <= 9
    ensures TypedItem(typed, tree, Body(w) + x) == Finish(typed, tree, Meaning(w), |Encode(w)| - 1)
  {
    hide BulkItem, ArrayItem, LineItem, ReadLong, NextTask, Put, Path, SignedDecimal, Decimal, Finish, FindNewline;
    hide Body;
    BodyParts(w);
    match w {
      case WStatus(text) => LineLeaf(typed, tree, text, x);
      case WError(text) => LineLeaf(typed, tree, text, x);
      case WInteger(v) =>
        ReadsNumeral(v);
        LineLeaf(typed, tree, SignedDecimal(v), x);
      case WBulk(bytes) =>
        PlainNumeral(|bytes|);
        BulkLeaf(typed, tree, bytes, x);
        assert Body(w) + x == SignedDecimal(|bytes|) + CRLF + (bytes + CRLF + x);
      case WNilBulk(length) => EmptyLeaf(typed, tree, length, x);
      case WNilArray => EmptyLeaf(typed, tree, -1, x);
      case WArray(_) =>
        PlainNumeral(0);
        EmptyLeaf(typed, tree, 0, x);
        assert Meaning(w) == Array([]);
    }
  }

  /** What follows the type byte of a leaf. */
  lemma {:induction false} BodyParts(w: Wire)
    requires w.WArray? ==> w.elements == []
    ensures |Body(w)| == |Encode(w)| - 1
    ensures w.WStatus? || w.WError? ==> Body(w) == w.text + CRLF
    ensures w.WInteger? ==> Body(w) == SignedDecimal(w.value) + CRLF
    ensures w.WBulk? ==> Body(w) == SignedDecimal(|w.bytes|) + CRLF + (w.bytes + CRLF)
    ensures w.WNilBulk? ==> Body(w) == SignedDecimal(w.length) + CRLF
    ensures w.WNilArray? ==> Body(w) == SignedDecimal(-1) + CRLF
    ensures w.WArray? ==> Body(w) == SignedDecimal(0) + CRLF
  {
    hide SignedDecimal, Decimal;
    if w.WBulk? { PlainNumeral(|w.bytes|); }
    if w.WArray? {
      PlainNumeral(0);
      assert EncodeAll(w.elements) == [];
      assert Encode(w) == [42] + (Decimal(0) + CRLF);
    }
  }

  /** An item without elements is read in one step. */
  lemma {:induction false} ReadsLeaf(stack: seq<Task>, tree: Reply, w: Wire, x: seq<byte>)
    requires stack != [] && Top(stack).taskType.Unknown? && Lines(w)
    requires w.WArray? ==> w.elements == []
    requires |stack| + Depth(w) <= 9
    ensures Item(stack, tree, Encode(w) + x) == Finish(stack, tree, Meaning(w), |Encode(w)|)
  {
    hide TypedItem, NextTask, Put, Path, Encode, Meaning;
    TypeKnown(w);
    var b := Encode(w)[0];
    var typed := WithTop(stack, Top(stack).(taskType := TypeOf(b)));
    assert Encode(w) + x == [b] + (Body(w) + x);
    TypeByte(stack, tree, b, Body(w) + x);
    TopDetails(stack, Top(typed));
    TypedLeaf(typed, tree, w, x);
  }

  lemma {:induction false} TypeKnown(w: Wire)
    ensures |Encode(w)| > 0 && !TypeOf(Encode(w)[0]).Unknown?
  {
  }

  lemma {:induction false} PlainNumeral(n: nat)
    ensures SignedDecimal(n) == Decimal(n)
  {
  }

  /** The header of an array that has elements opens a new level. */
  lemma {:induction false} ReadsHeader(stack: seq<Task>, tree: Reply, ws: seq<Wire>, x: seq<byte>)
    requires stack != [] && Top(stack).taskType.Unknown? && ws != [] && |stack| <= 8
    ensures var header := [42] + Decimal(|ws|) + CRLF;
            var base := WithTop(stack, Task(ArrayTask, |ws|, Top(stack).idx));
            Item(stack, tree, header + x) ==
            Done(base + [Task(Unknown, -1, 0)], Put(tree, Path(stack), Array(seq(|ws|, _ => Unset))), |header|) &&
            NextTask(base) == NextTask(stack) && Path(base) == Path(stack)
  {
    hide FindNewline, ReadLong, NextTask, Put, Path, SignedDecimal, Decimal;
    var rest := Decimal(|ws|) + CRLF + x;
    PlainNumeral(|ws|);
    Header(|ws|, x);
    assert rest == SignedDecimal(|ws|) + CRLF + x;
    assert [42] + Decimal(|ws|) + CRLF + x == [42] + rest;
    TypeByte(stack, tree, 42, rest);
    var typed := WithTop(stack, Top(stack).(taskType := ArrayTask));
    TopDetails(stack, Top(typed));
    TopDetails(stack, Task(ArrayTask, |ws|, Top(stack).idx));
    assert WithTop(typed, Top(typed).(elements := |ws|)) == WithTop(stack, Task(ArrayTask, |ws|, Top(stack).idx));
  }

  lemma {:induction false} RunStep(stack: seq<Task>, tree: Reply, u: seq<byte>)
    requires stack != [] && Item(stack, tree, u).Done?
    ensures var s := Item(stack, tree, u); s.used <= |u| && Run(stack, tree, u) == Run(s.stack, s.tree, u[s.used..])
  {
    ItemProgress(stack, tree, u);
  }

  // ---- Reading a whole reply ----

  /** An array half read: the first `i` elements are in, the others still unset. */
  function Partial(elements: seq<Reply>, i: nat): (r: seq<Reply>)
    requires i <= |elements|
    ensures |r| == |elements|
  {
    elements[..i] + seq(|elements| - i, _ => Unset)
  }

  lemma {:induction false} PartialStep(elements: seq<Reply>, i: nat)
    requires i < |elements|
    ensures Partial(elements, i)[i := elements[i]] == Partial(elements, i + 1) && Partial(elements, i)[i] == Unset
  {
  }

  lemma {:induction false} PartialDone(elements: seq<Reply>)
    ensures Partial(elements, |elements|) == elements
  {
  }

  /** Main result: the encoding of a reply, in front of any bytes, is read as exactly that reply, and reading
      goes on exactly behind it, provided no array item sits at the ninth level of the stack. */
  lemma {:induction false} ReadsWire(stack: seq<Task>, tree: Reply, w: Wire, x: seq<byte>)
    requires stack != [] && Top(stack).taskType.Unknown? && Reaches(tree, Path(stack))
    requires Lines(w) && |stack| + Depth(w) <= 9
    ensures Run(stack, tree, Encode(w) + x) == Run(NextTask(stack), Put(tree, Path(stack), Meaning(w)), x)
    decreases w, 0
  {
    hide Item, Run, NextTask, Path, Put;
    if w.WArray? && w.elements != [] {
      var ws := w.elements;
      var header := [42] + Decimal(|ws|) + CRLF;
      var base := WithTop(stack, Task(ArrayTask, |ws|, Top(stack).idx));
      assert Encode(w) + x == header + (EncodeAll(ws) + x);
      ReadsHeader(stack, tree, ws, EncodeAll(ws) + x);
      RunStep(stack, tree, header + (EncodeAll(ws) + x));
      assert (header + (EncodeAll(ws) + x))[|header|..] == EncodeAll(ws) + x;
      assert Partial(Meanings(ws), 0) == seq(|ws|, _ => Unset);
      ReadsElements(base, tree, ws, 0, x);
    } else {
      ReadsLeaf(stack, tree, w, x);
      RunStep(stack, tree, Encode(w) + x);
      assert (Encode(w) + x)[|Encode(w)|..] == x;
    }
  }

  lemma {:induction false} ReadsElements(base: seq<Task>, tree: Reply, ws: seq<Wire>, i: nat, x: seq<byte>)
    requires base != [] && Top(base).elements == |ws| && Reaches(tree, Path(base))
    requires i < |ws| && AllLines(ws[i..]) && |base| + 1 + MaxDepth(ws[i..]) <= 9
    ensures Run(base + [Task(Unknown, -1, i)], Put(tree, Path(base), Array(Partial(Meanings(ws), i))), EncodeAll(ws[i..]) + x) ==
            Run(NextTask(base), Put(tree, Path(base), Array(Meanings(ws))), x)
    decreases ws, |ws| - i
  {
    hide Item, Run, Put, Path, NextTask, Partial, Encode;
    var stack := base + [Task(Unknown, -1, i)];
    var partial := Partial(Meanings(ws), i);
    var now := Put(tree, Path(base), Array(partial));
    var rest := EncodeAll(ws[i + 1..]) + x;
    assert ws[i..][1..] == ws[i + 1..];
    assert EncodeAll(ws[i..]) + x == Encode(ws[i]) + rest;
    PathOf(base, i);
    PutReaches(tree, Path(base), partial, i);
    ReadsWire(stack, now, ws[i], rest);
    MeaningAt(ws, i);
    PutPut(tree, Path(base), partial, i, Meaning(ws[i]));
    PartialStep(Meanings(ws), i);
    NextOf(base, i);
    if i + 1 < |ws| {
      ReadsElements(base, tree, ws, i + 1, x);
    } else {
      PartialDone(Meanings(ws));
      assert ws[i + 1..] == [] && [] + x == x;
    }
  }

  lemma {:induction false} PathOf(base: seq<Task>, i: int)
    requires base != []
    ensures Path(base + [Task(Unknown, -1, i)]) == Path(base) + [i]
  {
    assert (base + [Task(Unknown, -1, i)])[..|base|] == base;
  }

  lemma {:induction false} NextOf(base: seq<Task>, i: int)
    requires base != []
    ensures NextTask(base + [Task(Unknown, -1, i)]) ==
            if i == Top(base).elements - 1 then NextTask(base) else base + [Task(Unknown, -1, i + 1)]
  {
    assert (base + [Task(Unknown, -1, i)])[..|base|] == base;
  }

  lemma {:induction false} MeaningAt(ws: seq<Wire>, i: nat)
    requires i < |ws|
    ensures Meanings(ws)[i] == Meaning(ws[i])
  {
    if i > 0 { MeaningAt(ws[1..], i - 1); }
  }

  // ---- Too deep ----

  /** An encoding with an array item at the ninth level of the stack is refused, wherever in the reply it is. */
  lemma {:induction false} RefusesDeepWire(stack: seq<Task>, tree: Reply, w: Wire, x: seq<byte>)
    requires stack != [] && |stack| <= 9 && Top(stack).taskType.Unknown? && Reaches(tree, Path(stack))
    requires Lines(w) && |stack| + Depth(w) > 9
    ensures Run(stack, tree, Encode(w) + x) == Fail(TooDeep)
    decreases w, 0
  {
    if |stack| == 9 {
      var rest := Encode(w)[1..] + x;
      assert Encode(w) + x == [42] + rest;
      TypeByte(stack, tree, 42, rest);
    } else {
      hide Item, Run, NextTask, Path, Put;
      var ws := w.elements;
      var header := [42] + Decimal(|ws|) + CRLF;
      var base := WithTop(stack, Task(ArrayTask, |ws|, Top(stack).idx));
      assert Encode(w) + x == header + (EncodeAll(ws) + x);
      ReadsHeader(stack, tree, ws, EncodeAll(ws) + x);
      RunStep(stack, tree, header + (EncodeAll(ws) + x));
      assert (header + (EncodeAll(ws) + x))[|header|..] == EncodeAll(ws) + x;
      assert Partial(Meanings(ws), 0) == seq(|ws|, _ => Unset);
      RefusesDeepElements(base, tree, ws, 0, x);
    }
  }

  lemma {:induction false} RefusesDeepElements(base: seq<Task>, tree: Reply, ws: seq<Wire>, i: nat, x: seq<byte>)
    requires base != [] && |base| <= 8 && Top(base).elements == |ws| && Reaches(tree, Path(base))
    requires i < |ws| && AllLines(ws[i..]) && |base| + 1 + MaxDepth(ws[i..]) > 9
    ensures Run(base + [Task(Unknown, -1, i)], Put(tree, Path(base), Array(Partial(Meanings(ws), i))), EncodeAll(ws[i..]) + x) ==
            Fail(TooDeep)
    decreases ws, |ws| - i
  {
    hide Item, Run, Put, Path, NextTask, Partial, Encode;
    var stack := base + [Task(Unknown, -1, i)];
    var partial := Partial(Meanings(ws), i);
    var now := Put(tree, Path(base), Array(partial));
    var rest := EncodeAll(ws[i + 1..]) + x;
    assert ws[i..][1..] == ws[i + 1..];
    assert EncodeAll(ws[i..]) + x == Encode(ws[i]) + rest;
    PathOf(base, i);
    PutReaches(tree, Path(base), partial, i);
    if |stack| + Depth(ws[i]) > 9 {
      RefusesDeepWire(stack, now, ws[i], rest);
    } else {
      ReadsWire(stack, now, ws[i], rest);
      MeaningAt(ws, i);
      PutPut(tree, Path(base), partial, i, Meaning(ws[i]));
      PartialStep(Meanings(ws), i);
      NextOf(base, i);
      RefusesDeepElements(base, tree, ws, i + 1, x);
    }
  }

  // ---- The reader's interface ----

  /** The round trip through redisReaderFeed and redisReaderGetReply: a reader between replies that is fed the
      encoding of a reply and any further bytes hands out exactly that reply and stands exactly behind it, if
      and only if at most eight arrays lie inside one another; otherwise it ends with the protocol error. */
  lemma {:induction false} ReplyRoundTrip(r: Reader, w: Wire, suffix: seq<byte>)
    requires Valid(r) && r.error.NoError? && r.stack == [] && r.tree == Unset && Unread(r) == [] && Lines(w)
    ensures var (r', g) := GetReply(Feed(r, Encode(w) + suffix));
            if Depth(w) <= 8 then g == Got(Meaning(w)) && CoreOf(r') == Live([RootTask], Unset, suffix)
            else g == Nothing && r'.error == Failed(TooDeep)
  {
    var fed := Feed(r, Encode(w) + suffix);
    FeedIsPush(r, Encode(w) + suffix);
    assert [] + (Encode(w) + suffix) == Encode(w) + suffix;
    assert CoreOf(fed) == Live([RootTask], Unset, Encode(w) + suffix);
    GetReplyCore(fed);
    if Depth(w) <= 8 {
      ReadsWire([RootTask], Unset, w, suffix);
    } else {
      RefusesDeepWire([RootTask], Unset, w, suffix);
    }
    hide Item;
  }

  /** The condition on lines is needed: a status that contains a line end is cut there. */
  lemma {:induction false} LineEndCutsStatus(text: seq<byte>, x: seq<byte>)
    ensures Run([RootTask], Unset, Encode(WStatus(text)) + x) == Emit(Status(text), x) <==> FindNewline(text) < 0
  {
    if FindNewline(text) < 0 {
      ReadsWire([RootTask], Unset, WStatus(text), x);
    } else {
      var n := FindNewline(text);
      var rest := text + CRLF + x;
      assert Encode(WStatus(text)) + x == [43] + rest;
      TypeByte([RootTask], Unset, 43, rest);
      assert rest == text + (CRLF + x);
      FindNewlineAppend(text, CRLF + x);
      RunStep([RootTask], Unset, [43] + rest);
      assert |rest[..n]| < |text|;
    }
  }
}
