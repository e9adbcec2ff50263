/** The reader as a stream of replies: feeding bytes in pieces, draining after each piece. */
module RespStream {
  import opened Bytes
  import opened Resp

  /** The fields of a redisReader. The stack is empty between replies. */
  datatype Reader = Reader(error: ErrorState, buf: seq<byte>, pos: nat, stack: seq<Task>, tree: Reply)

  datatype ErrorState = NoError | Failed(error: ReaderError)

  datatype Got = Nothing | Got(reply: Reply)

  const Fresh := Reader(NoError, [], 0, [], Unset)

  /** No stack that waits for bytes ends in an array item at the ninth level: that is an error at once. */
  ghost predicate Settled(stack: seq<Task>) {
    |stack| == 9 ==> !Top(stack).taskType.ArrayTask?
  }

  ghost predicate Valid(r: Reader) {
    r.pos <= |r.buf| && Settled(r.stack)
  }

  function Unread(r: Reader): seq<byte>
    requires Valid(r)
  {
    r.buf[r.pos..]
  }

  /** redisReaderFeed; a reader in an erroneous state takes nothing. */
  function Feed(r: Reader, bytes: seq<byte>): (r': Reader)
    requires Valid(r)
    ensures Valid(r')
  {
    if r.error.Failed? then r else r.(buf := r.buf + bytes)
  }

  /** What is done to the buffer before a reply is handed out: consumed bytes go once there are 1024. */
  function Discard(r: Reader): (r': Reader)
    requires Valid(r)
    ensures Valid(r')
  {
    if r.pos >= 1024 then r.(buf := r.buf[r.pos..], pos := 0) else r
  }

  /** redisReaderGetReply. */
  function GetReply(r: Reader): (g: (Reader, Got))
    requires Valid(r)
    ensures Valid(g.0)
  {
    if r.error.Failed? || |r.buf| == 0 then (r, Nothing)
    else
      var stack := if r.stack == [] then [RootTask] else r.stack;
      RunShrinks(stack, r.tree, Unread(r));
      match Run(stack, r.tree, Unread(r))
      case Fail(e) => (Reader(Failed(e), [], 0, [], Unset), Nothing)
      case Wait(stack', tree', rest) =>
        (Discard(r.(pos := |r.buf| - |rest|, stack := stack', tree := tree')), Nothing)
      case Emit(reply, rest) =>
        (Discard(r.(pos := |r.buf| - |rest|, stack := [], tree := Unset)), Got(reply))
  }

  lemma {:induction false} ItemSettles(stack: seq<Task>, tree: Reply, u: seq<byte>)
    requires |stack| > 0 && Item(stack, tree, u).More?
    ensures Settled(Item(stack, tree, u).stack)
  {
    hide FindNewline, ReadLong, NextTask, Put, Path;
  }

  lemma {:induction false} RunShrinks(stack: seq<Task>, tree: Reply, u: seq<byte>)
    ensures match Run(stack, tree, u)
            case Emit(_, rest) => |rest| <= |u| && rest == u[|u| - |rest|..] && (stack != [] ==> |rest| < |u|)
            case Wait(stack', _, rest) => |rest| <= |u| && rest == u[|u| - |rest|..] && stack' != [] && Settled(stack')
            case Fail(_) => true
    decreases |u|, |stack|
  {
    hide Item;
    if stack != [] {
      ItemProgress(stack, tree, u);
      var s := Item(stack, tree, u);
      if s.Done? {
        RunShrinks(s.stack, s.tree, u[s.used..]);
        var p := Run(s.stack, s.tree, u[s.used..]);
        if !p.Fail? {
          assert u[s.used..][|u| - s.used - |p.rest|..] == u[|u| - |p.rest|..];
        }
      } else if s.More? {
        ItemSettles(stack, tree, u);
      }
    }
  }

  /** Takes replies until none comes. */
  function Drain(r: Reader): (d: (Reader, seq<Reply>))
    requires Valid(r)
    ensures Valid(d.0)
    decreases |r.buf| - r.pos
  {
    var (r', g) := GetReply(r);
    if g.Nothing? then (r', [])
    else
      GetReplyProgress(r);
      var (r'', replies) := Drain(r');
      (r'', [g.reply] + replies)
  }

  lemma {:induction false} GetReplyProgress(r: Reader)
    requires Valid(r) && GetReply(r).1.Got?
    ensures |Unread(GetReply(r).0)| < |Unread(r)|
  {
    RunShrinks(if r.stack == [] then [RootTask] else r.stack, r.tree, Unread(r));
  }

  /** Feeds the chunks one after the other, draining after each. */
  function FeedAll(r: Reader, chunks: seq<seq<byte>>): (d: (Reader, seq<Reply>))
    requires Valid(r)
    ensures Valid(d.0)
    decreases |chunks|
  {
    if chunks == [] then (r, [])
    else
      var (r', replies) := Drain(Feed(r, chunks[0]));
      var (r'', more) := FeedAll(r', chunks[1..]);
      (r'', replies + more)
  }

  function Flatten(chunks: seq<seq<byte>>): seq<byte> {
    if chunks == [] then [] else chunks[0] + Flatten(chunks[1..])
  }

  // ---- What is left when the buffer bookkeeping is taken away ----

  /** The reader between calls: the stack (a fresh root task when it is empty), the partial tree and the
      unread bytes; or the error. */
  datatype Core = Live(stack: seq<Task>, tree: Reply, unread: seq<byte>) | Dead(error: ReaderError)

  function CoreOf(r: Reader): Core
    requires Valid(r)
  {
    if r.error.Failed? then Dead(r.error.error)
    else Live(if r.stack == [] then [RootTask] else r.stack, r.tree, Unread(r))
  }

  function Pump(c: Core): (Core, seq<Reply>)
    decreases if c.Live? then |c.unread| else 0
  {
    if c.Dead? || c.stack == [] then (c, [])
    else
      RunShrinks(c.stack, c.tree, c.unread);
      match Run(c.stack, c.tree, c.unread)
      case Fail(e) => (Dead(e), [])
      case Wait(stack, tree, rest) => (Live(stack, tree, rest), [])
      case Emit(reply, rest) =>
        var (c', replies) := Pump(Live([RootTask], Unset, rest));
        (c', [reply] + replies)
  }

  function Push(c: Core, bytes: seq<byte>): Core {
    if c.Dead? then c else c.(unread := c.unread + bytes)
  }

  lemma {:induction false} NoReplyYet(r: Reader)
    requires Valid(r) && |r.buf| == 0
    ensures GetReply(r) == (r, Nothing)
  {
    hide Run;
  }

  lemma {:induction false} GetReplyRuns(r: Reader, stack: seq<Task>)
    requires Valid(r) && r.error.NoError? && |r.buf| > 0 && stack == if r.stack == [] then [RootTask] else r.stack
    ensures match Run(stack, r.tree, Unread(r))
            case Fail(e) => GetReply(r) == (Reader(Failed(e), [], 0, [], Unset), Nothing)
            case Wait(stack', tree', rest) => (
              |rest| <= |r.buf| && Settled(stack') &&
              GetReply(r) == (Discard(r.(pos := |r.buf| - |rest|, stack := stack', tree := tree')), Nothing)
              )
            case Emit(reply, rest) => (
              |rest| <= |r.buf| && Settled([]) &&
              GetReply(r) == (Discard(r.(pos := |r.buf| - |rest|, stack := [], tree := Unset)), Got(reply))
              )
  {
    hide Run, Settled, Discard;
    RunShrinks(stack, r.tree, Unread(r));
    NothingSettled();
  }

  lemma {:induction false} CoreParts(r: Reader)
    requires Valid(r)
    ensures if r.error.Failed? then CoreOf(r) == Dead(r.error.error)
            else CoreOf(r) == Live(if r.stack == [] then [RootTask] else r.stack, r.tree, Unread(r))
  {
  }

  /** Dropping consumed bytes is not seen. */
  lemma {:induction false} DiscardKeeps(r: Reader)
    requires Valid(r)
    ensures CoreOf(Discard(r)) == CoreOf(r)
    ensures |Discard(r).buf| - Discard(r).pos == |r.buf| - r.pos
  {
    hide Settled;
  }

  lemma {:induction false} TailIsRest(r: Reader, rest: seq<byte>)
    requires Valid(r) && |rest| <= |Unread(r)| && rest == Unread(r)[|Unread(r)| - |rest|..]
    ensures r.buf[|r.buf| - |rest|..] == rest
  {
    hide Settled;
  }

  lemma {:induction false} NothingSettled()
    ensures Settled([])
  {
  }

  /** Before a call hands something out, what it has consumed is dropped from the buffer, unless that is less than 1024
      bytes altogether; nothing else is dropped. */
  lemma {:induction false} ConsumedIsDropped(r: Reader)
    requires Valid(r) && r.error.NoError? && |r.buf| > 0 && GetReply(r).0.error.NoError?
    ensures var r' := GetReply(r).0; var dropped := |r.buf| - |r'.buf|;
            0 <= dropped && r'.buf == r.buf[dropped..] && r'.pos < 1024 &&
            (dropped > 0 ==> dropped >= 1024 && r'.pos == 0)
  {
    var stack := if r.stack == [] then [RootTask] else r.stack;
    hide Run, GetReply, Settled, Discard;
    GetReplyRuns(r, stack);
    match Run(stack, r.tree, Unread(r))
    case Fail(e) =>
    case Wait(stack', tree', rest) => DiscardDrops(r.(pos := |r.buf| - |rest|, stack := stack', tree := tree'));
    case Emit(reply, rest) => DiscardDrops(r.(pos := |r.buf| - |rest|, stack := [], tree := Unset));
  }

  lemma {:induction false} DiscardDrops(r: Reader)
    requires Valid(r)
    ensures var r' := Discard(r); var dropped := |r.buf| - |r'.buf|;
            0 <= dropped && r'.buf == r.buf[dropped..] && r'.pos < 1024 &&
            (dropped > 0 ==> dropped >= 1024 && r'.pos == 0)
  {
    hide Settled;
  }

  lemma {:induction false} RootSettled()
    ensures Settled([RootTask])
  {
  }

  lemma {:induction false} EmptyWaits(stack: seq<Task>, tree: Reply)
    requires stack != [] && Settled(stack)
    ensures Run(stack, tree, []) == Wait(stack, tree, [])
  {
  }

  /** One call hands out what one run of the core produces. */
  lemma {:induction false} GetReplyCore(r: Reader)
    requires Valid(r) && r.error.NoError?
    ensures var c := CoreOf(r); var (r', g) := GetReply(r);
            match Run(c.stack, c.tree, c.unread)
            case Fail(e) => CoreOf(r') == Dead(e) && g.Nothing?
            case Wait(stack, tree, rest) => CoreOf(r') == Live(stack, tree, rest) && g.Nothing?
            case Emit(reply, rest) => CoreOf(r') == Live([RootTask], Unset, rest) && g == Got(reply) && |r'.buf| - r'.pos < |r.buf| - r.pos
  {
    hide Run, Settled, Discard, CoreOf, GetReply;
    var c := CoreOf(r);
    CoreParts(r);
    RunShrinks(c.stack, c.tree, c.unread);
    if |r.buf| == 0 {
      NoReplyYet(r);
      assert Settled(c.stack) by { RootSettled(); }
      EmptyWaits(c.stack, c.tree);
    } else {
      GetReplyRuns(r, c.stack);
      match Run(c.stack, c.tree, c.unread)
      case Fail(e) => CoreParts(GetReply(r).0);
      case Wait(stack, tree, rest) =>
        var left := r.(pos := |r.buf| - |rest|, stack := stack, tree := tree);
        TailIsRest(r, rest);
        DiscardKeeps(left);
        CoreParts(left);
      case Emit(reply, rest) =>
        var left := r.(pos := |r.buf| - |rest|, stack := [], tree := Unset);
        TailIsRest(r, rest);
        NothingSettled();
        DiscardKeeps(left);
        CoreParts(left);
    }
  }

  /** Draining is pumping, whatever has been discarded from the buffer so far. */
  lemma {:induction false} DrainIsPump(r: Reader)
    requires Valid(r)
    ensures CoreOf(Drain(r).0) == Pump(CoreOf(r)).0 && Drain(r).1 == Pump(CoreOf(r)).1
    decreases |r.buf| - r.pos
  {
    if r.error.NoError? {
      var c := CoreOf(r);
      RunShrinks(c.stack, c.tree, c.unread);
      GetReplyCore(r);
      hide Run, GetReply, CoreOf;
      if Run(c.stack, c.tree, c.unread).Emit? {
        DrainIsPump(GetReply(r).0);
      }
    }
  }

  // ---- Chunks do not matter ----

  /** Bytes that arrive after a pause continue the stream. */
  lemma {:induction false} PumpResumes(c: Core, x: seq<byte>)
    requires c.Live? ==> c.stack != []
    ensures Pump(Push(c, x)).0 == Pump(Push(Pump(c).0, x)).0
    ensures Pump(Push(c, x)).1 == Pump(c).1 + Pump(Push(Pump(c).0, x)).1
    decreases if c.Live? then |c.unread| else 0
  {
    if c.Live? {
      RunResumes(c.stack, c.tree, c.unread, x);
      RunShrinks(c.stack, c.tree, c.unread);
      hide Run;
      if Run(c.stack, c.tree, c.unread).Emit? {
        PumpResumes(Live([RootTask], Unset, Run(c.stack, c.tree, c.unread).rest), x);
      }
    }
  }

  lemma {:induction false} FeedIsPush(r: Reader, bytes: seq<byte>)
    requires Valid(r)
    ensures CoreOf(Feed(r, bytes)) == Push(CoreOf(r), bytes)
  {
    if r.error.NoError? { assert (r.buf + bytes)[r.pos..] == r.buf[r.pos..] + bytes; }
  }

  lemma {:induction false} PumpAgain(c: Core)
    requires c.Live? ==> c.stack != []
    ensures Pump(Pump(c).0) == (Pump(c).0, []) && (Pump(c).0.Live? ==> Pump(c).0.stack != [])
    decreases if c.Live? then |c.unread| else 0
  {
    PumpResumes(c, []);
    assert c.Live? ==> c.unread + [] == c.unread;
    assert Push(c, []) == c;
    assert Pump(c).0.Live? ==> Pump(c).0.unread + [] == Pump(c).0.unread;
    assert Push(Pump(c).0, []) == Pump(c).0;
    PumpKeepsStack(c);
  }

  lemma {:induction false} PumpKeepsStack(c: Core)
    requires c.Live? ==> c.stack != []
    ensures Pump(c).0.Live? ==> Pump(c).0.stack != []
    decreases if c.Live? then |c.unread| else 0
  {
    if c.Live? {
      RunShrinks(c.stack, c.tree, c.unread);
      if Run(c.stack, c.tree, c.unread).Emit? {
        PumpKeepsStack(Live([RootTask], Unset, Run(c.stack, c.tree, c.unread).rest));
      }
    }
  }

  /** Main result: however the bytes are cut into chunks, the same replies come out, and the reader ends with
      the same error, or the same unfinished item and unread bytes, as when all bytes arrive at once. */
  lemma {:induction false} ChunksDoNotMatter(r: Reader, chunks: seq<seq<byte>>)
    requires Valid(r) && Drain(r).1 == [] && CoreOf(Drain(r).0) == CoreOf(r)
    ensures FeedAll(r, chunks).1 == Drain(Feed(r, Flatten(chunks))).1
    ensures CoreOf(FeedAll(r, chunks).0) == CoreOf(Drain(Feed(r, Flatten(chunks))).0)
    decreases |chunks|
  {
    hide Drain, Feed, Pump;
    var all := Flatten(chunks);
    FeedIsPush(r, all);
    DrainIsPump(Feed(r, all));
    DrainIsPump(r);
    if chunks == [] {
      assert Push(CoreOf(r), []) == CoreOf(r) by { assert CoreOf(r).Live? ==> CoreOf(r).unread + [] == CoreOf(r).unread; }
    } else {
      var fed := Feed(r, chunks[0]);
      var next := Drain(fed).0;
      FeedIsPush(r, chunks[0]);
      DrainIsPump(fed);
      DrainIsPump(next);
      PumpAgain(CoreOf(fed));
      ChunksDoNotMatter(next, chunks[1..]);
      var rest := Flatten(chunks[1..]);
      FeedIsPush(next, rest);
      DrainIsPump(Feed(next, rest));
      PumpResumes(CoreOf(fed), rest);
      assert Push(Push(CoreOf(r), chunks[0]), rest) == Push(CoreOf(r), all) by {
        assert CoreOf(r).Live? ==> CoreOf(r).unread + chunks[0] + rest == CoreOf(r).unread + (chunks[0] + rest);
      }
    }
  }

  /** The same for a fresh reader, without any assumption. */
  lemma {:induction false} FreshChunksDoNotMatter(chunks: seq<seq<byte>>)
    ensures FeedAll(Fresh, chunks).1 == FeedAll(Fresh, [Flatten(chunks)]).1
    ensures CoreOf(FeedAll(Fresh, chunks).0) == CoreOf(FeedAll(Fresh, [Flatten(chunks)]).0)
    ensures FeedAll(Fresh, chunks).0.error == FeedAll(Fresh, [Flatten(chunks)]).0.error
  {
    ChunksDoNotMatter(Fresh, chunks);
    ChunksDoNotMatter(Fresh, [Flatten(chunks)]);
    assert Flatten([Flatten(chunks)]) == Flatten(chunks) + [] == Flatten(chunks);
  }
}
