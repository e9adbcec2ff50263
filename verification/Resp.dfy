/** The Redis serialization protocol as hiredis reads it, on values: the task stack, the reply tree
    being filled, and the unread bytes. */
module Resp {
  import opened Bytes

  // ---- Lines and numbers ----

  /** The position of the first carriage return that a line feed follows. */
  function FindNewline(s: seq<byte>): (r: int)
    ensures -1 <= r < |s|
    ensures r >= 0 ==> r + 1 < |s| && s[r] == CR && s[r + 1] == LF
  {
    if |s| < 2 then -1
    else if s[0] == CR && s[1] == LF then 0
    else
      var r := FindNewline(s[1..]);
      if r < 0 then -1 else r + 1
  }

  /** Digits up to the end or the first carriage return; -1 for anything else. */
  function ReadDigits(s: seq<byte>, v: nat): (r: int)
    ensures r >= -1
  {
    if s == [] || s[0] == CR then v
    else if IsDigit(s[0]) then ReadDigits(s[1..], v * 10 + (s[0] - ZERO))
    else -1
  }

  /** The number on a line. Anything unexpected reads as -1, whatever the sign. */
  function ReadLong(line: seq<byte>): int {
    if line != [] && line[0] == MINUS then
      var v := ReadDigits(line[1..], 0);
      if v < 0 then -1 else -v
    else if line != [] && line[0] == PLUS then ReadDigits(line[1..], 0)
    else ReadDigits(line, 0)
  }

  // ---- Replies and tasks ----

  /** A reply tree; `Unset` is an array slot that has not been written yet. */
  datatype Reply =
    | Unset
    | Status(text: seq<byte>)
    | Error(text: seq<byte>)
    | Integer(value: int)
    | Nil
    | Bulk(bytes: seq<byte>)
    | Array(elements: seq<Reply>)

  datatype TaskType = Unknown | StatusTask | ErrorTask | IntegerTask | BulkTask | ArrayTask

  /** One level of the task stack: the type once its first byte is read, the number of elements once an
      array's header is read, and the index in the array one level below. */
  datatype Task = Task(taskType: TaskType, elements: int, idx: int)

  const RootTask := Task(Unknown, -1, -1)

  datatype ReaderError = ProtocolByte(b: byte) | TooDeep

  /** The first byte of an item tells its type. */
  function TypeOf(b: byte): TaskType {
    if b == 45 then ErrorTask
    else if b == 43 then StatusTask
    else if b == 58 then IntegerTask
    else if b == 36 then BulkTask
    else if b == 42 then ArrayTask
    else Unknown
  }

  /** Where in the reply tree the top task's value goes. */
  function Path(stack: seq<Task>): seq<int> {
    if |stack| <= 1 then [] else Path(stack[..|stack| - 1]) + [stack[|stack| - 1].idx]
  }

  /** The tree with `v` written at a path. */
  function Put(tree: Reply, path: seq<int>, v: Reply): Reply
    decreases |path|
  {
    if path == [] then v
    else if tree.Array? && 0 <= path[0] < |tree.elements| then
      Array(tree.elements[path[0] := Put(tree.elements[path[0]], path[1..], v)])
    else tree
  }

  /** Leaves every array whose last element has been read and turns to the next element, if any. */
  function NextTask(stack: seq<Task>): seq<Task> {
    if |stack| <= 1 then []
    else
      var cur, prv := stack[|stack| - 1], stack[|stack| - 2];
      if cur.idx == prv.elements - 1 then NextTask(stack[..|stack| - 1])
      else stack[..|stack| - 1] + [Task(Unknown, -1, cur.idx + 1)]
  }

  function Top(stack: seq<Task>): Task
    requires |stack| > 0
  {
    stack[|stack| - 1]
  }

  function WithTop(stack: seq<Task>, t: Task): seq<Task>
    requires |stack| > 0
  {
    stack[|stack| - 1 := t]
  }

  // ---- One item ----

  /** What reading one item does: it is read, more bytes are needed, or the input is wrong. */
  datatype Step =
    | Done(stack: seq<Task>, tree: Reply, used: nat)
    | More(stack: seq<Task>, used: nat)
    | Bad(error: ReaderError)

  function Finish(stack: seq<Task>, tree: Reply, v: Reply, used: nat): Step {
    Done(NextTask(stack), Put(tree, Path(stack), v), used)
  }

  function LineItem(stack: seq<Task>, tree: Reply, u: seq<byte>): Step
    requires |stack| > 0
  {
    var n := FindNewline(u);
    if n < 0 then More(stack, 0)
    else
      var line := u[..n];
      var v := if Top(stack).taskType.IntegerTask? then Integer(ReadLong(line))
               else if Top(stack).taskType.ErrorTask? then Error(line) else Status(line);
      Finish(stack, tree, v, n + 2)
  }

  function BulkItem(stack: seq<Task>, tree: Reply, u: seq<byte>): Step
    requires |stack| > 0
  {
    var n := FindNewline(u);
    if n < 0 then More(stack, 0)
    else
      var len := ReadLong(u[..n]);
      if len < 0 then Finish(stack, tree, Nil, n + 2)
      else if n + 2 + len + 2 <= |u| then Finish(stack, tree, Bulk(u[n + 2..n + 2 + len]), n + 2 + len + 2)
      else More(stack, 0)
  }

  function ArrayItem(stack: seq<Task>, tree: Reply, u: seq<byte>): Step
    requires |stack| > 0
  {
    if |stack| == 9 then Bad(TooDeep)
    else
      var n := FindNewline(u);
      if n < 0 then More(stack, 0)
      else
        var count := ReadLong(u[..n]);
        if count == -1 then Finish(stack, tree, Nil, n + 2)
        else if count > 0 then
          Done(WithTop(stack, Top(stack).(elements := count)) + [Task(Unknown, -1, 0)],
               Put(tree, Path(stack), Array(seq(count, _ => Unset))), n + 2)
        else Finish(stack, tree, Array([]), n + 2)
  }

  function TypedItem(stack: seq<Task>, tree: Reply, u: seq<byte>): Step
    requires |stack| > 0
  {
    match Top(stack).taskType
    case BulkTask => BulkItem(stack, tree, u)
    case ArrayTask => ArrayItem(stack, tree, u)
    case _ => LineItem(stack, tree, u)
  }

  /** The same step with `k` more bytes used in front of it. */
  function After(s: Step, k: nat): Step {
    match s
    case Done(stack, tree, used) => Done(stack, tree, used + k)
    case More(stack, used) => More(stack, used + k)
    case Bad(e) => Bad(e)
  }

  function Item(stack: seq<Task>, tree: Reply, u: seq<byte>): Step
    requires |stack| > 0
  {
    if !Top(stack).taskType.Unknown? then TypedItem(stack, tree, u)
    else if u == [] then More(stack, 0)
    else if TypeOf(u[0]).Unknown? then Bad(ProtocolByte(u[0]))
    else After(TypedItem(WithTop(stack, Top(stack).(taskType := TypeOf(u[0]))), tree, u[1..]), 1)
  }

  lemma {:induction false} TypedProgress(stack: seq<Task>, tree: Reply, u: seq<byte>)
    requires |stack| > 0
    ensures var s := TypedItem(stack, tree, u);
            (s.Done? ==> 0 < s.used <= |u|) && (s.More? ==> s == More(stack, 0))
  {
    hide ReadLong, NextTask, Put, Path;
    assert FindNewline(u) >= 0 ==> FindNewline(u) + 2 <= |u|;
  }

  /** Every item that is read uses up bytes, never more than there are. */
  lemma {:induction false} ItemProgress(stack: seq<Task>, tree: Reply, u: seq<byte>)
    requires |stack| > 0
    ensures var s := Item(stack, tree, u);
            (s.Done? ==> 0 < s.used <= |u|) && (s.More? ==> s.used <= |u| && |s.stack| == |stack|)
  {
    hide ReadLong, NextTask, Put, Path, FindNewline;
    if Top(stack).taskType.Unknown? && u != [] && !TypeOf(u[0]).Unknown? {
      TypedProgress(WithTop(stack, Top(stack).(taskType := TypeOf(u[0]))), tree, u[1..]);
    } else if !Top(stack).taskType.Unknown? {
      TypedProgress(stack, tree, u);
    }
  }

  // ---- One reply ----

  datatype Parse =
    | Emit(reply: Reply, rest: seq<byte>)
    | Wait(stack: seq<Task>, tree: Reply, rest: seq<byte>)
    | Fail(error: ReaderError)

  function Run(stack: seq<Task>, tree: Reply, u: seq<byte>): Parse
    decreases |u|, |stack|
  {
    if stack == [] then Emit(tree, u)
    else
      ItemProgress(stack, tree, u);
      match Item(stack, tree, u)
      case Done(stack', tree', used) => Run(stack', tree', u[used..])
      case More(stack', used) => Wait(stack', tree, u[used..])
      case Bad(e) => Fail(e)
  }

  // ---- Arrival of more bytes ----

  lemma {:induction false} FindNewlineAppend(u: seq<byte>, x: seq<byte>)
    requires FindNewline(u) >= 0
    ensures FindNewline(u + x) == FindNewline(u)
  {
    if !(u[0] == CR && u[1] == LF) {
      assert (u + x)[1..] == u[1..] + x;
      FindNewlineAppend(u[1..], x);
    }
  }

  /** A step that did not wait is not changed by bytes that arrive later. */
  lemma {:induction false} TypedItemAppend(stack: seq<Task>, tree: Reply, u: seq<byte>, x: seq<byte>)
    requires |stack| > 0
    ensures TypedItem(stack, tree, u).More? ==> TypedItem(stack, tree, u) == More(stack, 0)
    ensures !TypedItem(stack, tree, u).More? ==> TypedItem(stack, tree, u + x) == TypedItem(stack, tree, u)
  {
    hide ReadLong, NextTask, Put, Path, FindNewline;
    var n := FindNewline(u);
    if n >= 0 {
      FindNewlineAppend(u, x);
      assert (u + x)[..n] == u[..n];
      var len := ReadLong(u[..n]);
      if len >= 0 && n + 2 + len + 2 <= |u| {
        assert (u + x)[n + 2..n + 2 + len] == u[n + 2..n + 2 + len];
      }
    }
  }

  lemma {:induction false} ItemAppend(stack: seq<Task>, tree: Reply, u: seq<byte>, x: seq<byte>)
    requires |stack| > 0
    ensures var s := Item(stack, tree, u);
            match s
            case More(stack', used) =>
              |stack'| > 0 && used <= |u| && Item(stack, tree, u + x) == After(Item(stack', tree, u[used..] + x), used)
            case _ => Item(stack, tree, u + x) == s
  {
    hide TypedItem;
    if !Top(stack).taskType.Unknown? {
      TypedItemAppend(stack, tree, u, x);
      assert u[0..] == u;
    } else if u == [] {
      assert u + x == x && u[0..] + x == x;
    } else {
      var typed := WithTop(stack, Top(stack).(taskType := TypeOf(u[0])));
      TypedItemAppend(typed, tree, u[1..], x);
      assert (u + x)[1..] == u[1..] + x;
    }
  }

  /** Reading can stop for lack of bytes anywhere and go on later: what was read before the pause and
      what is read after it is what would have been read at once. */
  lemma {:induction false} RunResumes(stack: seq<Task>, tree: Reply, u: seq<byte>, x: seq<byte>)
    ensures match Run(stack, tree, u)
            case Emit(r, rest) => Run(stack, tree, u + x) == Emit(r, rest + x)
            case Wait(stack', tree', rest) => Run(stack, tree, u + x) == Run(stack', tree', rest + x)
            case Fail(e) => Run(stack, tree, u + x) == Fail(e)
    decreases |u|, |stack|
  {
    hide Item;
    if stack != [] {
      ItemProgress(stack, tree, u);
      ItemAppend(stack, tree, u, x);
      match Item(stack, tree, u)
      case Done(stack', tree', used) =>
        assert (u + x)[used..] == u[used..] + x;
        RunResumes(stack', tree', u[used..], x);
      case More(stack', used) =>
        WaitAgain(stack, tree, u, x);
      case Bad(e) =>
    }
  }

  lemma {:induction false} WaitAgain(stack: seq<Task>, tree: Reply, u: seq<byte>, x: seq<byte>)
    requires |stack| > 0 && Item(stack, tree, u).More?
    ensures var s := Item(stack, tree, u);
            |s.stack| > 0 && s.used <= |u| && Run(stack, tree, u + x) == Run(s.stack, tree, u[s.used..] + x)
  {
    hide Item;
    ItemAppend(stack, tree, u, x);
    ItemProgress(stack, tree, u);
    var s := Item(stack, tree, u);
    ItemProgress(s.stack, tree, u[s.used..] + x);
    var t := Item(s.stack, tree, u[s.used..] + x);
    match t
    case Done(_, _, used) => assert (u + x)[used + s.used..] == (u[s.used..] + x)[used..];
    case More(_, used) => assert (u + x)[used + s.used..] == (u[s.used..] + x)[used..];
    case Bad(_) =>
  }
}
