/** What holds of the reader's task stack and reply tree in every reachable state. */
module RespInvariant {
  import opened Bytes
  import opened Resp
  import opened RespStream

  /** A reply without unwritten slots. */
  predicate Complete(r: Reply) {
    match r
    case Unset => false
    case Array(elements) => forall e :: e in elements ==> Complete(e)
    case _ => true
  }

  /** At most nine levels; every level below the top is an array whose element index is in range. */
  ghost predicate StackShape(stack: seq<Task>) {
    |stack| <= 9 &&
    (|stack| > 0 ==> stack[0].idx == -1) &&
    forall k :: 0 < k < |stack| ==> ParentFits(stack, k)
  }

  ghost predicate ParentFits(stack: seq<Task>, k: nat)
    requires 0 < k < |stack|
  {
    stack[k - 1].taskType.ArrayTask? && 0 <= stack[k].idx < stack[k - 1].elements
  }

  lemma {:induction false} InvBound(stack: seq<Task>, tree: Reply)
    requires Inv(stack, tree)
    ensures |stack| <= 9
  {
  }

  /** Shorter stacks, and stacks that differ in their top task only, have the same shape below. */
  lemma {:induction false} ShapeBelow(stack: seq<Task>, t: Task)
    requires StackShape(stack) && stack != []
    ensures StackShape(stack[..|stack| - 1])
    ensures t.idx == Top(stack).idx ==> StackShape(WithTop(stack, t))
    ensures |stack| > 1 && 0 <= t.idx < stack[|stack| - 2].elements ==> StackShape(WithTop(stack, t))
  {
    var below := stack[..|stack| - 1];
    forall k | 0 < k < |below| ensures ParentFits(below, k) { assert ParentFits(stack, k); }
    forall k | 0 < k < |stack| && (t.idx == Top(stack).idx || 0 <= t.idx < stack[|stack| - 2].elements)
      ensures ParentFits(WithTop(stack, t), k)
    {
      assert ParentFits(stack, k);
    }
  }

  lemma {:induction false} ShapeAbove(stack: seq<Task>)
    requires StackShape(stack) && 0 < |stack| <= 8 && Top(stack).taskType.ArrayTask? && Top(stack).elements > 0
    ensures StackShape(stack + [Task(Unknown, -1, 0)])
  {
    forall k | 0 < k < |stack| + 1 ensures ParentFits(stack + [Task(Unknown, -1, 0)], k) {
      if k < |stack| { assert ParentFits(stack, k); }
    }
  }

  /** The subtree at stack level `k - 1`: slots before the current index hold complete replies, slots behind it
      have never been written, and the current one holds the subtree of the next level. At the top, `bottom`
      says what is there. */
  ghost predicate Filled(tree: Reply, stack: seq<Task>, k: nat, bottom: Reply -> bool)
    requires 0 < k <= |stack|
    decreases |stack| - k
  {
    if k == |stack| then bottom(tree)
    else
      tree.Array? && |tree.elements| == stack[k - 1].elements && 0 <= stack[k].idx < |tree.elements| &&
      (forall i :: 0 <= i < stack[k].idx ==> Complete(tree.elements[i])) &&
      (forall i :: stack[k].idx < i < |tree.elements| ==> tree.elements[i] == Unset) &&
      Filled(tree.elements[stack[k].idx], stack, k + 1, bottom)
  }

  const Unwritten: Reply -> bool := (r: Reply) => r.Unset?
  const Written: Reply -> bool := (r: Reply) => Complete(r)

  ghost predicate Inv(stack: seq<Task>, tree: Reply) {
    StackShape(stack) && if stack == [] then Complete(tree) else Filled(tree, stack, 1, Unwritten)
  }

  /** The path from level `k` on. */
  function PathFrom(stack: seq<Task>, k: nat): seq<int>
    requires 0 < k <= |stack|
    decreases |stack| - k
  {
    if k == |stack| then [] else [stack[k].idx] + PathFrom(stack, k + 1)
  }

  lemma {:induction false} PathIsPathFrom(stack: seq<Task>, k: nat)
    requires 0 < k <= |stack|
    ensures Path(stack) == Path(stack[..k]) + PathFrom(stack, k)
    decreases |stack| - k
  {
    if k == |stack| {
      assert stack[..k] == stack;
    } else {
      hide PathFrom, Path;
      PathIsPathFrom(stack, k + 1);
      PathStep(stack, k);
      assert Path(stack[..k]) + [stack[k].idx] + PathFrom(stack, k + 1) ==
             Path(stack[..k]) + ([stack[k].idx] + PathFrom(stack, k + 1));
    }
  }

  lemma {:induction false} PathStep(stack: seq<Task>, k: nat)
    requires 0 < k < |stack|
    ensures Path(stack[..k + 1]) == Path(stack[..k]) + [stack[k].idx]
    ensures PathFrom(stack, k) == [stack[k].idx] + PathFrom(stack, k + 1)
  {
    assert stack[..k + 1][..k] == stack[..k];
  }

  lemma {:induction false} PathFromRoot(stack: seq<Task>)
    requires stack != []
    ensures Path(stack) == PathFrom(stack, 1)
  {
    PathIsPathFrom(stack, 1);
    assert Path(stack[..1]) == [];
  }

  /** Writing at the path replaces what is at the top and nothing else. */
  lemma {:induction false} PutFills(tree: Reply, stack: seq<Task>, k: nat, bottom: Reply -> bool, v: Reply, bottom': Reply -> bool)
    requires 0 < k <= |stack| && Filled(tree, stack, k, bottom) && bottom'(v)
    ensures Filled(Put(tree, PathFrom(stack, k), v), stack, k, bottom')
    decreases |stack| - k
  {
    if k < |stack| {
      var path := PathFrom(stack, k);
      assert path[1..] == PathFrom(stack, k + 1);
      PutFills(tree.elements[stack[k].idx], stack, k + 1, bottom, v, bottom');
    }
  }

  /** When the last element of the top array is in, the array is a complete reply one level below. */
  lemma {:induction false} LastElement(tree: Reply, stack: seq<Task>, k: nat)
    requires 0 < k < |stack| && Filled(tree, stack, k, Written)
    requires stack[|stack| - 1].idx == stack[|stack| - 2].elements - 1
    ensures Filled(tree, stack[..|stack| - 1], k, Written)
    decreases |stack| - k
  {
    if k + 1 < |stack| {
      LastElement(tree.elements[stack[k].idx], stack, k + 1);
    } else {
      forall e | e in tree.elements ensures Complete(e) {
        var i :| 0 <= i < |tree.elements| && tree.elements[i] == e;
      }
    }
  }

  /** Otherwise the next slot of that array, still unwritten, is the current one. */
  lemma {:induction false} NextElement(tree: Reply, stack: seq<Task>, k: nat, next: Task)
    requires 0 < k < |stack| && Filled(tree, stack, k, Written)
    requires next.idx == stack[|stack| - 1].idx + 1 < stack[|stack| - 2].elements
    ensures Filled(tree, stack[..|stack| - 1] + [next], k, Unwritten)
    decreases |stack| - k
  {
    if k + 1 < |stack| {
      NextElement(tree.elements[stack[k].idx], stack, k + 1, next);
    }
  }

  lemma {:induction false} NextTaskKeepsInv(stack: seq<Task>, tree: Reply)
    requires StackShape(stack) && stack != [] && Filled(tree, stack, 1, Written)
    ensures Inv(NextTask(stack), tree)
  {
    hide Complete;
    if |stack| > 1 {
      var next := Task(Unknown, -1, stack[|stack| - 1].idx + 1);
      assert ParentFits(stack, |stack| - 1);
      ShapeBelow(stack, next);
      if stack[|stack| - 1].idx == stack[|stack| - 2].elements - 1 {
        LastElement(tree, stack, 1);
        NextTaskKeepsInv(stack[..|stack| - 1], tree);
      } else {
        assert WithTop(stack, next) == stack[..|stack| - 1] + [next];
        NextElement(tree, stack, 1, next);
      }
    }
  }

  /** A finished item is written into its slot, which was unwritten. */
  lemma {:induction false} FinishKeepsInv(stack: seq<Task>, tree: Reply, v: Reply)
    requires Inv(stack, tree) && stack != [] && Complete(v)
    ensures Inv(NextTask(stack), Put(tree, Path(stack), v))
  {
    PathFromRoot(stack);
    PutFills(tree, stack, 1, Unwritten, v, Written);
    NextTaskKeepsInv(stack, Put(tree, Path(stack), v));
  }

  /** The type byte and the element count of the top task play no part in what is filled. */
  lemma {:induction false} TopFilled(tree: Reply, stack: seq<Task>, t: Task, k: nat, bottom: Reply -> bool)
    requires 0 < k <= |stack| && t.idx == Top(stack).idx && Filled(tree, stack, k, bottom)
    ensures Filled(tree, WithTop(stack, t), k, bottom)
    decreases |stack| - k
  {
    if k < |stack| { TopFilled(tree.elements[stack[k].idx], stack, t, k + 1, bottom); }
  }

  /** An array header opens a level whose slots are all unwritten. */
  lemma {:induction false} HeaderFills(tree: Reply, stack: seq<Task>, k: nat, count: int, v: Reply)
    requires 0 < k <= |stack| && Top(stack).elements == count > 0
    requires v == Array(seq(count, _ => Unset)) && Filled(tree, stack, k, (r: Reply) => r == v)
    ensures Filled(tree, stack + [Task(Unknown, -1, 0)], k, Unwritten)
    decreases |stack| - k
  {
    if k < |stack| {
      HeaderFills(tree.elements[stack[k].idx], stack, k + 1, count, v);
    } else {
      assert tree.elements[0] == Unset;
      assert Filled(tree.elements[0], stack + [Task(Unknown, -1, 0)], k + 1, Unwritten);
    }
  }

  lemma {:induction false} HeaderKeepsInv(stack: seq<Task>, tree: Reply, count: int)
    requires Inv(stack, tree) && stack != [] && |stack| <= 8 && count > 0 && Top(stack).taskType.ArrayTask?
    ensures Inv(WithTop(stack, Top(stack).(elements := count)) + [Task(Unknown, -1, 0)],
                Put(tree, Path(stack), Array(seq(count, _ => Unset))))
  {
    hide Filled, StackShape, Complete;
    var v := Array(seq(count, _ => Unset));
    var base := WithTop(stack, Top(stack).(elements := count));
    ShapeBelow(stack, Top(base));
    ShapeAbove(base);
    TopFilled(tree, stack, Top(base), 1, Unwritten);
    PathFromRoot(stack);
    SamePath(stack, base, 1);
    PutFills(tree, base, 1, Unwritten, v, (r: Reply) => r == v);
    HeaderFills(Put(tree, Path(stack), v), base, 1, count, v);
  }

  lemma {:induction false} SamePath(a: seq<Task>, b: seq<Task>, k: nat)
    requires |a| == |b| && 0 < k <= |a| && forall i :: 0 <= i < |a| ==> a[i].idx == b[i].idx
    ensures PathFrom(a, k) == PathFrom(b, k)
    decreases |a| - k
  {
    if k < |a| { SamePath(a, b, k + 1); }
  }

  lemma {:induction false} TypedKeepsInv(stack: seq<Task>, tree: Reply, u: seq<byte>)
    requires Inv(stack, tree) && stack != []
    ensures var s := TypedItem(stack, tree, u); s.Done? ==> Inv(s.stack, s.tree)
  {
    hide Inv, FindNewline, ReadLong, NextTask, Put, Path;
    var s := TypedItem(stack, tree, u);
    var n := FindNewline(u);
    InvBound(stack, tree);
    if s.Done? {
      var line := u[..n];
      var t := Top(stack).taskType;
      if t.BulkTask? {
        FinishKeepsInv(stack, tree, Bulk(if ReadLong(line) < 0 then [] else u[n + 2..n + 2 + ReadLong(line)]));
        FinishKeepsInv(stack, tree, Nil);
      } else if t.ArrayTask? {
        var count := ReadLong(line);
        if count > 0 { HeaderKeepsInv(stack, tree, count); }
        FinishKeepsInv(stack, tree, Nil);
        FinishKeepsInv(stack, tree, Array([]));
      } else {
        FinishKeepsInv(stack, tree, Integer(ReadLong(line)));
        FinishKeepsInv(stack, tree, Error(line));
        FinishKeepsInv(stack, tree, Status(line));
      }
    }
  }

  lemma {:induction false} TypingKeepsInv(stack: seq<Task>, tree: Reply, t: TaskType)
    requires Inv(stack, tree) && stack != []
    ensures Inv(WithTop(stack, Top(stack).(taskType := t)), tree)
  {
    ShapeBelow(stack, Top(stack).(taskType := t));
    TopFilled(tree, stack, Top(stack).(taskType := t), 1, Unwritten);
  }

  /** Every step keeps the invariant: each slot is written once, and only while its array is on the stack. */
  lemma {:induction false} ItemKeepsInv(stack: seq<Task>, tree: Reply, u: seq<byte>)
    requires Inv(stack, tree) && stack != []
    ensures match Item(stack, tree, u)
            case Done(stack', tree', _) => Inv(stack', tree')
            case More(stack', _) => Inv(stack', tree) && stack' != []
            case Bad(_) => true
  {
    hide TypedItem, Inv;
    if !Top(stack).taskType.Unknown? {
      TypedProgress(stack, tree, u);
      TypedKeepsInv(stack, tree, u);
    } else if u != [] {
      var typed := WithTop(stack, Top(stack).(taskType := TypeOf(u[0])));
      TypingKeepsInv(stack, tree, TypeOf(u[0]));
      TypedProgress(typed, tree, u[1..]);
      TypedKeepsInv(typed, tree, u[1..]);
    }
  }

  /** No reply is handed out with an unwritten slot, and a pause leaves the invariant in place. */
  lemma {:induction false} RunKeepsInv(stack: seq<Task>, tree: Reply, u: seq<byte>)
    requires Inv(stack, tree)
    ensures match Run(stack, tree, u)
            case Emit(reply, _) => Complete(reply)
            case Wait(stack', tree', _) => Inv(stack', tree') && stack' != []
            case Fail(_) => true
    decreases |u|, |stack|
  {
    hide Item, Inv;
    if stack != [] {
      ItemProgress(stack, tree, u);
      ItemKeepsInv(stack, tree, u);
      var s := Item(stack, tree, u);
      if s.Done? { RunKeepsInv(s.stack, s.tree, u[s.used..]); }
    } else {
      InvComplete(tree);
    }
  }

  lemma {:induction false} InvComplete(tree: Reply)
    requires Inv([], tree)
    ensures Complete(tree)
  {
  }

  /** The reader between calls. */
  ghost predicate ReaderInv(r: Reader) {
    Valid(r) && (r.error.NoError? ==> if r.stack == [] then r.tree == Unset else Inv(r.stack, r.tree))
  }

  /** Over every run: whatever is fed in whatever pieces, the invariant holds after each drain and all replies
      handed out are complete. */
  lemma {:induction false} DrainKeepsInv(r: Reader)
    requires ReaderInv(r)
    ensures ReaderInv(Drain(r).0) && forall i :: 0 <= i < |Drain(r).1| ==> Complete(Drain(r).1[i])
    decreases |r.buf| - r.pos
  {
    if r.error.NoError? && |r.buf| > 0 {
      var stack := if r.stack == [] then [RootTask] else r.stack;
      assert Inv([RootTask], Unset);
      RunShrinks(stack, r.tree, Unread(r));
      RunKeepsInv(stack, r.tree, Unread(r));
      hide Run, Inv;
      if GetReply(r).1.Got? {
        GetReplyProgress(r);
        DrainKeepsInv(GetReply(r).0);
      }
    }
  }

  lemma {:induction false} EveryRunKeepsInv(r: Reader, chunks: seq<seq<byte>>)
    requires ReaderInv(r)
    ensures ReaderInv(FeedAll(r, chunks).0) && forall i :: 0 <= i < |FeedAll(r, chunks).1| ==> Complete(FeedAll(r, chunks).1[i])
    decreases |chunks|
  {
    hide Drain, Inv;
    if chunks != [] {
      DrainKeepsInv(Feed(r, chunks[0]));
      EveryRunKeepsInv(Drain(Feed(r, chunks[0])).0, chunks[1..]);
    }
  }
}
