/** The resumable reader of hiredis, with its fields updated in place. */
module HiredisReader {
  import opened Bytes
  import opened Resp
  import opened RespStream
  import opened RespInvariant

  class RedisReader {
    var err: ErrorState
    var buf: seq<byte>       // an sds string; a zero byte follows its last byte
    var pos: nat
    var len: nat
    const rstack: array<Task>
    var ridx: int
    var reply: Reply

    /** The fields as a value. */
    ghost function State(): Reader
      reads this, rstack
    {
      Reader(err, buf, pos, Stack(), reply)
    }

    ghost function Stack(): seq<Task>
      reads this, rstack
    {
      if 0 <= ridx < rstack.Length then rstack[..ridx + 1] else []
    }

    ghost predicate Sane()
      reads this, rstack
    {
      rstack.Length == 9 && -1 <= ridx <= 8 && len == |buf| && pos <= len
    }

    ghost predicate Good()
      reads this, rstack
    {
      Sane() && ReaderInv(State())
    }

    /** The byte at an index; the terminating zero included. */
    function ByteAt(i: nat): byte
      requires i <= |buf|
      reads this
    {
      if i < |buf| then buf[i] else 0
    }

    /** redisReaderCreate. */
    constructor ()
      ensures Good() && State() == Fresh && fresh(rstack)
    {
      err, buf, pos, len, ridx, reply := NoError, [], 0, 0, -1, Unset;
      rstack := new Task[9](_ => RootTask);
    }

    /** __redisReaderSetError: drops the partial reply, the input and the stack. */
    method SetError(e: ReaderError)
      modifies this
      ensures State() == Reader(Failed(e), [], 0, [], Unset) && len == 0 && ridx == -1
    {
      reply := Unset;
      buf, pos, len := [], 0, 0;
      ridx := -1;
      err := Failed(e);
    }

    /** seekNewline: where the line that starts at `start` ends. Looking one byte too far finds the
        terminating zero. */
    method SeekNewline(start: nat) returns (r: int)
      requires start <= |buf|
      ensures r == FindNewline(buf[start..])
    {
      hide FindNewline;
      ghost var s := buf[start..];
      var p := 0;
      var last: int := |buf| - start - 1;
      assert s[0..] == s;
      while p < last
        invariant 0 <= p <= |s|
        invariant FindNewline(s) == Shifted(FindNewline(s[p..]), p)
      {
        while p < last && ByteAt(start + p) != CR
          invariant 0 <= p <= last
          invariant FindNewline(s) == Shifted(FindNewline(s[p..]), p)
        {
          NoLineHere(s, p);
          p := p + 1;
        }
        if ByteAt(start + p) != CR {
          return -1;
        } else if ByteAt(start + p + 1) == LF {
          LineHere(s, p);
          return p;
        } else {
          NoLineHere(s, p);
          p := p + 1;
        }
      }
      return -1;
    }

    /** The loop of readLongLong: the digits from `start` to the carriage return that ends them, or -1. */
    method ReadDigitsFrom(start: nat, ghost n: nat) returns (v: int)
      requires start + n < |buf| && buf[start + n] == CR
      ensures v == ReadDigits(buf[start..start + n], 0)
    {
      ghost var end := start + n;
      v := 0;
      var i := start;
      while buf[i] != CR
        invariant start <= i <= end && v >= 0
        invariant ReadDigits(buf[start..end], 0) == ReadDigits(buf[i..end], v)
        decreases end - i
      {
        assert buf[i..end][0] == buf[i] && buf[i..end][1..] == buf[i + 1..end];
        if !IsDigit(buf[i]) { return -1; }
        v := v * 10 + (buf[i] - ZERO);
        i := i + 1;
      }
      DigitsEnd(buf[i..end], v);
    }

    /** readLongLong: the number on the line that starts at `start`; some carriage return ends it. */
    method ReadLongLong(start: nat, ghost n: nat) returns (r: int)
      requires start + n < |buf| && buf[start + n] == CR
      ensures r == ReadLong(buf[start..start + n])
    {
      hide ReadDigits;
      ghost var line := buf[start..start + n];
      if buf[start] == MINUS {
        assert line[0] == MINUS && line[1..] == buf[start + 1..start + n];
        r := ReadDigitsFrom(start + 1, n - 1);
        if r >= 0 { r := -r; }
      } else if buf[start] == PLUS {
        assert line[0] == PLUS && line[1..] == buf[start + 1..start + n];
        r := ReadDigitsFrom(start + 1, n - 1);
      } else {
        assert line != [] ==> line[0] == buf[start];
        r := ReadDigitsFrom(start, n);
      }
    }

    /** readBytes(1). */
    method ReadByte() returns (found: bool, b: byte)
      requires Sane()
      modifies this`pos
      ensures found == (old(pos) < |buf|)
      ensures found ==> b == buf[old(pos)] && pos == old(pos) + 1
      ensures !found ==> pos == old(pos)
    {
      if len - pos >= 1 {
        found, b := true, buf[pos];
        pos := pos + 1;
      } else {
        found, b := false, 0;
      }
    }

    /** moveToNextTask. */
    method MoveToNextTask()
      requires rstack.Length == 9 && 0 <= ridx <= 8 && StackShape(Stack())
      modifies this`ridx, rstack
      ensures -1 <= ridx <= 8 && Stack() == NextTask(old(Stack()))
    {
      ghost var stack := Stack();
      while ridx >= 0
        invariant -1 <= ridx <= 8 && StackShape(Stack())
        invariant ridx >= 0 ==> NextTask(Stack()) == NextTask(stack)
        invariant ridx == -1 ==> NextTask(stack) == []
        decreases ridx
      {
        if ridx == 0 {
          ridx := ridx - 1;
          return;
        }
        ghost var now := Stack();
        assert ParentFits(now, ridx);
        assert rstack[ridx - 1].taskType.ArrayTask?;
        if rstack[ridx].idx == rstack[ridx - 1].elements - 1 {
          ShapeBelow(now, now[ridx]);
          assert now[..ridx] == rstack[..ridx];
          ridx := ridx - 1;
        } else {
          assert rstack[ridx].idx < rstack[ridx - 1].elements;
          rstack[ridx] := Task(Unknown, -1, rstack[ridx].idx + 1);
          assert Stack() == now[..ridx] + [Task(Unknown, -1, now[ridx].idx + 1)];
          return;
        }
      }
    }

    /** The fields after a step that started with `stack`, `tree` and `start`. */
    ghost predicate Stepped(step: Step, ok: bool, stack: seq<Task>, tree: Reply, start: nat)
      reads this, rstack
    {
      ok == step.Done? &&
      match step
      case Done(stack', tree', used) => err.NoError? && Stack() == stack' && reply == tree' && pos == start + used
      case More(stack', used) => err.NoError? && Stack() == stack' && reply == tree && pos == start + used
      case Bad(e) => State() == Reader(Failed(e), [], 0, [], Unset)
    }

    /** What the item handlers start from. */
    ghost predicate AtItem()
      reads this, rstack
    {
      Sane() && ridx >= 0 && err.NoError? && Inv(Stack(), reply)
    }

    /** Writes a finished value into its place, `parent->element[task->idx]` or the root. */
    method Store(v: Reply)
      requires Sane() && ridx >= 0
      modifies this`reply
      ensures reply == Put(old(reply), Path(Stack()), v)
    {
      ghost var stack := Stack();
      var path := [];
      for k := 1 to ridx + 1
        invariant path == Path(stack[..k])
      {
        assert stack[..k + 1][..k] == stack[..k];
        path := path + [rstack[k].idx];
      }
      assert stack[..ridx + 1] == stack;
      reply := Put(reply, path, v);
    }

    /** The end of every item handler but that of an array with elements: the value is stored, and reading goes on. */
    method Finish(v: Reply)
      requires Sane() && ridx >= 0 && StackShape(Stack())
      modifies this`reply, this`ridx, rstack
      ensures Sane() && Stack() == NextTask(old(Stack())) && reply == Put(old(reply), Path(old(Stack())), v)
    {
      hide NextTask, Put, Path, StackShape;
      Store(v);
      MoveToNextTask();
    }

    /** readLine: moves past a line that is complete. */
    method ReadLine() returns (found: bool, start: nat, n: nat)
      requires Sane()
      modifies this`pos
      ensures start == old(pos)
      ensures found == (FindNewline(buf[start..]) >= 0)
      ensures found ==> n == FindNewline(buf[start..]) && pos == start + n + 2 <= len
      ensures !found ==> pos == start
    {
      start := pos;
      var s := SeekNewline(pos);
      if s >= 0 {
        found, n := true, s;
        pos := pos + n + 2;
      } else {
        found, n := false, 0;
      }
    }

    method ProcessLineItem() returns (ok: bool)
      requires AtItem()
      modifies this`pos, this`reply, this`ridx, rstack
      ensures Sane() && Stepped(LineItem(old(Stack()), old(reply), old(buf[pos..])), ok, old(Stack()), old(reply), old(pos))
    {
      hide FindNewline, ReadLong, NextTask, Put, Path, Inv, StackShape;
      InvBound(Stack(), reply);
      InvShape(Stack(), reply);
      ghost var u := buf[pos..];
      var found, start, n := ReadLine();
      if !found { return false; }
      assert u[..n] == buf[start..start + n];
      if rstack[ridx].taskType.IntegerTask? {
        var value := ReadLongLong(start, n);
        Finish(Integer(value));
      } else if rstack[ridx].taskType.ErrorTask? {
        Finish(Error(buf[start..start + n]));
      } else {
        Finish(Status(buf[start..start + n]));
      }
      return true;
    }

    method ProcessBulkItem() returns (ok: bool)
      requires AtItem()
      modifies this`pos, this`reply, this`ridx, rstack
      ensures Sane() && Stepped(BulkItem(old(Stack()), old(reply), old(buf[pos..])), ok, old(Stack()), old(reply), old(pos))
    {
      hide FindNewline, ReadLong, NextTask, Put, Path, Inv, StackShape;
      InvBound(Stack(), reply);
      InvShape(Stack(), reply);
      ghost var u, stack, tree := buf[pos..], Stack(), reply;
      ghost var step := BulkItem(stack, tree, u);
      var n := SeekNewline(pos);
      if n < 0 { return false; }
      assert u[..n] == buf[pos..pos + n];
      var length := ReadLongLong(pos, n);
      var bytelen := n + 2;
      var value := Nil;
      if length >= 0 {
        bytelen := bytelen + (length + 2);
        if pos + bytelen > len { return false; }
        assert u[n + 2..n + 2 + length] == buf[pos + n + 2..pos + n + 2 + length];
        value := Bulk(buf[pos + n + 2..pos + n + 2 + length]);
      }
      assert step == Done(NextTask(stack), Put(tree, Path(stack), value), bytelen);
      pos := pos + bytelen;
      Finish(value);
      return true;
    }

    /** An array that has elements is stored with all of them unset, and reading turns to the first. */
    method OpenArray(elements: int)
      requires Sane() && 0 <= ridx < 8 && elements > 0
      modifies this`reply, this`ridx, rstack
      ensures Sane() && reply == Put(old(reply), Path(old(Stack())), Array(seq(elements, _ => Unset)))
      ensures Stack() == WithTop(old(Stack()), Top(old(Stack())).(elements := elements)) + [Task(Unknown, -1, 0)]
    {
      hide Put, Path;
      ghost var stack := Stack();
      Store(Array(seq(elements, _ => Unset)));
      rstack[ridx] := rstack[ridx].(elements := elements);
      ridx := ridx + 1;
      rstack[ridx] := Task(Unknown, -1, 0);
      assert Stack() == WithTop(stack, Top(stack).(elements := elements)) + [Task(Unknown, -1, 0)];
    }

    method ProcessMultiBulkItem() returns (ok: bool)
      requires AtItem() && rstack[ridx].taskType.ArrayTask?
      modifies this, rstack
      ensures Sane() && Stepped(ArrayItem(old(Stack()), old(reply), old(buf[pos..])), ok, old(Stack()), old(reply), old(pos))
      ensures err.NoError? ==> buf == old(buf)
    {
      hide FindNewline, ReadLong, NextTask, Put, Path, Inv, StackShape;
      InvShape(Stack(), reply);
      if ridx == 8 {
        SetError(TooDeep);
        return false;
      }
      ghost var u, stack := buf[pos..], Stack();
      var found, start, n := ReadLine();
      if !found { return false; }
      assert u[..n] == buf[start..start + n];
      var elements := ReadLongLong(start, n);
      if elements == -1 {
        Finish(Nil);
      } else if elements > 0 {
        OpenArray(elements);
      } else {
        Finish(Array([]));
      }
      return true;
    }

    method ProcessItem() returns (ok: bool)
      requires AtItem()
      modifies this, rstack
      ensures Sane() && Stepped(Item(old(Stack()), old(reply), old(buf[pos..])), ok, old(Stack()), old(reply), old(pos))
      ensures err.NoError? ==> buf == old(buf)
    {
      hide FindNewline, ReadLong, NextTask, Put, Path, Inv, LineItem, BulkItem, ArrayItem;
      ghost var stack, u := Stack(), buf[pos..];
      InvBound(stack, reply);
      if rstack[ridx].taskType.Unknown? {
        var found, b := ReadByte();
        if !found { return false; }
        if TypeOf(b).Unknown? {
          SetError(ProtocolByte(b));
          return false;
        }
        TypingKeepsInv(stack, reply, TypeOf(b));
        rstack[ridx] := rstack[ridx].(taskType := TypeOf(b));
        assert Stack() == WithTop(stack, Top(stack).(taskType := TypeOf(b)));
        assert buf[pos..] == u[1..];
      }
      if rstack[ridx].taskType.BulkTask? {
        ok := ProcessBulkItem();
      } else if rstack[ridx].taskType.ArrayTask? {
        ok := ProcessMultiBulkItem();
      } else {
        ok := ProcessLineItem();
      }
    }

    /** redisReaderFeed. */
    method FeedBytes(bytes: seq<byte>) returns (ok: bool)
      requires Good()
      modifies this`buf, this`len
      ensures Good() && State() == Feed(old(State()), bytes) && ok == err.NoError?
    {
      hide Inv;
      if err.Failed? { return false; }
      if |bytes| >= 1 {
        buf := buf + bytes;
        len := |buf|;
      } else {
        assert buf + bytes == buf;
      }
      return true;
    }

    /** The loop of redisReaderGetReply. */
    method ProcessItems()
      requires AtItem()
      modifies this, rstack
      ensures Sane()
      ensures match Run(old(Stack()), old(reply), old(buf[pos..]))
              case Emit(r, rest) => err.NoError? && ridx == -1 && reply == r && buf == old(buf) && pos == |buf| - |rest|
              case Wait(stack, tree, rest) => err.NoError? && ridx >= 0 && Stack() == stack && reply == tree && buf == old(buf) && pos == |buf| - |rest|
              case Fail(e) => State() == Reader(Failed(e), [], 0, [], Unset)
    {
      hide Item, Inv;
      ghost var parse := Run(Stack(), reply, buf[pos..]);
      ghost var buf0 := buf;
      while ridx >= 0
        invariant Sane() && err.NoError? && Inv(Stack(), reply) && buf == buf0
        invariant Run(Stack(), reply, buf[pos..]) == parse
        decreases |buf| - pos, ridx
      {
        ghost var stack, tree, u := Stack(), reply, buf[pos..];
        ItemProgress(stack, tree, u);
        ItemKeepsInv(stack, tree, u);
        var start := pos;
        var ok := ProcessItem();
        if !ok { break; }
        assert buf[pos..] == u[Item(stack, tree, u).used..];
      }
    }

    /** redisReaderGetReply. */
    method NextReply() returns (ok: bool, got: Got)
      requires Good()
      modifies this, rstack
      ensures Good() && (State(), got) == GetReply(old(State())) && ok == err.NoError?
    {
      hide Run, Inv;
      got := Nothing;
      if err.Failed? { return false, got; }
      if len == 0 { return true, got; }
      assert Inv([RootTask], Unset) by { RootInv(); }
      if ridx == -1 {
        rstack[0] := RootTask;
        ridx := 0;
        assert Stack() == [RootTask];
      }
      RunShrinks(Stack(), reply, buf[pos..]);
      RunKeepsInv(Stack(), reply, buf[pos..]);
      ProcessItems();
      if err.Failed? { return false, got; }
      got := HandOut();
      ok := true;
    }

    /** The end of redisReaderGetReply: consumed bytes are discarded, and a complete reply is handed out. */
    method HandOut() returns (got: Got)
      requires Sane() && Valid(State())
      modifies this`buf, this`pos, this`len, this`reply
      ensures Sane() && got == if ridx == -1 then Got(old(reply)) else Nothing
      ensures Discard(old(State())).(tree := if ridx == -1 then Unset else old(reply)) == State()
    {
      got := Nothing;
      if pos >= 1024 {
        buf := buf[pos..];
        pos := 0;
        len := |buf|;
      }
      if ridx == -1 {
        got := Got(reply);
        reply := Unset;
      }
    }
  }

  lemma {:induction false} RootInv()
    ensures Inv([RootTask], Unset)
  {
  }

  lemma {:induction false} InvShape(stack: seq<Task>, tree: Reply)
    requires Inv(stack, tree)
    ensures StackShape(stack)
  {
  }

  function Shifted(r: int, p: nat): int { if r < 0 then -1 else r + p }

  lemma {:induction false} NoLineHere(s: seq<byte>, p: nat)
    requires p < |s| && !(s[p] == CR && p + 1 < |s| && s[p + 1] == LF)
    ensures Shifted(FindNewline(s[p..]), p) == Shifted(FindNewline(s[p + 1..]), p + 1)
  {
    assert s[p..][1..] == s[p + 1..];
  }

  lemma {:induction false} LineHere(s: seq<byte>, p: nat)
    requires p + 1 < |s| && s[p] == CR && s[p + 1] == LF
    ensures FindNewline(s[p..]) == 0
  {
  }

  /** At the carriage return nothing is left, or something that begins with one. */
  lemma {:induction false} DigitsEnd(rest: seq<byte>, v: nat)
    requires rest == [] || rest[0] == CR
    ensures ReadDigits(rest, v) == v
  {
  }
}
