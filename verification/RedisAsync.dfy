/** The asynchronous context of hiredis: regular commands, their callbacks in a queue, and the ways to close. */
module RedisAsync {
  import opened Bytes
  import opened Resp
  import RespStream
  import RespRoundTrip

  /** redisCallback: whether there is a function, and the caller's data. */
  datatype Callback<P> = Callback(fn: bool, privdata: P)

  datatype Answer = Answer(reply: Reply) | NoAnswer

  /** A callback that left the queue, and the reply it was run with; without a function it is only dropped. */
  datatype Ran<P> = Ran(callback: Callback<P>, answer: Answer)

  // ---- The queue ----

  class Node<P> {
    const callback: Callback<P>
    var next: Node?<P>

    constructor (callback: Callback<P>)
      ensures this.callback == callback && next == null
    {
      this.callback, next := callback, null;
    }
  }

  ghost function NodeAt<P>(nodes: seq<Node<P>>, i: nat): Node?<P> { if i < |nodes| then nodes[i] else null }

  ghost function Callbacks<P>(nodes: seq<Node<P>>): (cs: seq<Callback<P>>)
    ensures |cs| == |nodes| && forall i :: 0 <= i < |nodes| ==> cs[i] == nodes[i].callback
  {
    if nodes == [] then [] else [nodes[0].callback] + Callbacks(nodes[1..])
  }

  class CallbackList<!P> {
    var head: Node?<P>
    var tail: Node?<P>
    ghost var nodes: seq<Node<P>>

    ghost predicate Valid()
      reads this, nodes
    {
      head == NodeAt(nodes, 0) && tail == (if nodes == [] then null else nodes[|nodes| - 1]) &&
      (forall i :: 0 <= i < |nodes| ==> nodes[i].next == NodeAt(nodes, i + 1)) &&
      forall i, j :: 0 <= i < j < |nodes| ==> nodes[i] != nodes[j]
    }

    ghost function Contents(): seq<Callback<P>>
      reads this
    { Callbacks(nodes) }

    ghost function Nodes(): set<Node<P>>
      reads this
    { set n | n in nodes }

    lemma {:induction false} HeadTells()
      requires Valid()
      ensures head == null <==> Contents() == []
    {
    }

    constructor ()
      ensures Valid() && Contents() == [] && Nodes() == {}
    {
      head, tail, nodes := null, null, [];
    }

    /** __redisPushCallback. */
    method Push(source: Callback<P>)
      requires Valid()
      modifies this, Nodes()
      ensures Valid() && Contents() == old(Contents()) + [source] && fresh(Nodes() - old(Nodes()))
    {
      var cb := new Node(source);
      if head == null { head := cb; }
      if tail != null { tail.next := cb; }
      tail := cb;
      nodes := nodes + [cb];
    }

    /** __redisShiftCallback. */
    method Shift() returns (r: Shifted<P>)
      requires Valid()
      modifies this
      ensures Valid() && Nodes() <= old(Nodes())
      ensures old(Contents()) == match r case Empty => [] case Shifted(target) => [target] + Contents()
      ensures r.Empty? ==> Contents() == []
    {
      var cb := head;
      if cb == null { return Empty; }
      head := cb.next;
      if cb == tail { tail := null; }
      nodes := nodes[1..];
      r := Shifted(cb.callback);
    }
  }

  datatype Shifted<P> = Empty | Shifted(target: Callback<P>)

  // ---- The history of a context ----

  /** The callbacks that ran, in the order in which they ran. */
  ghost function CallbacksOf<P>(log: seq<Ran<P>>): (cs: seq<Callback<P>>)
    ensures |cs| == |log|
  {
    seq(|log|, i requires 0 <= i < |log| => log[i].callback)
  }

  /** The first callbacks ran with these replies, in this order, and all others with none. */
  ghost predicate Answered<P>(log: seq<Ran<P>>, replies: seq<Reply>) {
    |replies| <= |log| &&
    (forall i :: 0 <= i < |replies| ==> log[i].answer == Answer(replies[i])) &&
    forall i :: |replies| <= i < |log| ==> log[i].answer == NoAnswer
  }

  /** The replies that the bytes received so far contain. */
  ghost function Received(chunks: seq<seq<byte>>): seq<Reply> { RespStream.FeedAll(RespStream.Fresh, chunks).1 }

  /** More replies have come than commands were accepted, and the first one too many is no error. */
  ghost predicate Surplus(accepted: nat, received: seq<Reply>) {
    accepted < |received| && !received[accepted].Error?
  }

  /** The two assertions that can fail: there are callbacks left at a clean disconnect, and there is no callback left
      for a reply. */
  datatype Reason = CallbacksLeft | NoCallbackLeft

  /** A context is used until it is freed, or until an assertion fails. */
  datatype Phase = Alive | Freed | Aborted(reason: Reason)

  datatype Status = Ok | Err

  /** What the socket tells when it is checked for the first time. */
  datatype Socket = Connected | InProgress | Refused

  /** What a read event brings: bytes (none when the call was interrupted), or an error or the end. */
  datatype Input = Arrived(bytes: seq<byte>) | ReadError

  datatype Output = Sent(n: nat) | WriteError

  /** The bytes complete no reply, and are no error. */
  ghost predicate NoNews(r: RespStream.Reader, bytes: seq<byte>)
    requires RespStream.Valid(r)
  {
    var (r', replies) := RespStream.Drain(RespStream.Feed(r, bytes));
    replies == [] && r'.error.NoError?
  }

  /** What a callback may call. */
  datatype Call<P> = Issue(callback: Callback<P>, len: nat) | Disconnect | Free

  /** The context. */
  class AsyncContext<P> {
    const onDisconnect: bool
    const replies: CallbackList<P>
    var phase: Phase
    var connected: bool
    var disconnecting: bool
    var freeing: bool
    var inCallback: bool
    var err: bool
    var obuf: nat
    var reader: RespStream.Reader
    ghost var accepted: seq<Callback<P>>
    ghost var log: seq<Ran<P>>
    ghost var answers: seq<Reply>
    ghost var chunks: seq<seq<byte>>
    ghost var farewells: seq<Status>

    ghost function Nodes(): set<Node<P>>
      reads replies
    { replies.Nodes() }

    /** The callbacks that wait for a reply. */
    ghost function Waiting(): seq<Callback<P>>
      reads replies
    { replies.Contents() }

    /** Every accepted command has run exactly once or waits in the queue, all in the order of acceptance; the first
        ones ran with the replies, in their order. */
    ghost predicate InOrder()
      reads this, replies
    {
      CallbacksOf(log) + Waiting() == accepted && Answered(log, answers)
    }

    /** Between callbacks, while the context exists. */
    ghost predicate Open()
      reads this, replies, Nodes()
    {
      phase == Alive && !inCallback && replies.Valid() && InOrder() && farewells == [] && RespStream.Valid(reader) &&
      answers <= Received(chunks)
    }

    /** The context is told to close, and not because a reply too many came. */
    ghost predicate MayClose()
      reads this, replies
    {
      (disconnecting || freeing || Waiting() == []) && (freeing || !Surplus(|accepted|, Received(chunks)))
    }

    /** Between events. The replies that callbacks ran with are the replies in the bytes, from the first one on: all of
        them while the context is alive. Once it is freed, nothing waits any more, and a connected user has been told
        once. */
    ghost predicate Valid()
      reads this, replies, Nodes()
    {
      match phase
      case Alive =>
        Open() && |log| == |answers| && !err && reader.error.NoError? && !freeing &&
        RespStream.FeedAll(RespStream.Fresh, chunks) == (reader, answers)
      case Freed =>
        CallbacksOf(log) == accepted && Answered(log, answers) && answers <= Received(chunks) && Waiting() == [] &&
        (freeing || !Surplus(|accepted|, Received(chunks))) && farewells == Farewell()
      case Aborted(reason) =>
        CallbacksOf(log) <= accepted && Answered(log, answers) && answers <= Received(chunks) && !freeing && !err &&
        match reason
        case CallbacksLeft => disconnecting && obuf == 0 && |log| < |accepted| && answers == Received(chunks)
        case NoCallbackLeft => |answers| == |accepted| && Surplus(|accepted|, Received(chunks))
    }

    /** What the disconnect callback is told at the end: an error only if there is one and nobody freed the context. */
    ghost function Farewell(): seq<Status>
      reads this
    {
      if onDisconnect && connected then [if freeing || !err then Ok else Err] else []
    }

    /** redisAsyncInitialize. */
    constructor (onDisconnect: bool)
      ensures Valid() && phase == Alive && !connected && !disconnecting && obuf == 0 && fresh(replies) && fresh(Nodes())
      ensures accepted == [] && log == [] && chunks == [] && Waiting() == [] && reader == RespStream.Fresh
    {
      hide RespStream.Drain, RespStream.Feed, RespStream.GetReply, CallbackList.Valid, CallbackList.Contents;
      this.onDisconnect := onDisconnect;
      replies := new CallbackList();
      phase, connected, disconnecting, freeing, inCallback, err := Alive, false, false, false, false, false;
      obuf, reader := 0, RespStream.Fresh;
      accepted, log, answers, chunks, farewells := [], [], [], [], [];
    }

    /** What no callback changes. */
    ghost function Fixed(): (Phase, bool, bool, RespStream.Reader, seq<Reply>, seq<seq<byte>>, seq<Status>)
      reads this
    {
      (phase, connected, err, reader, answers, chunks, farewells)
    }

    // ---- Calls, also from callbacks ----

    /** __redisAsyncCommand for a regular command: refused once the context is closing, queued otherwise. */
    method Command(cb: Callback<P>, len: nat) returns (status: Status)
      requires phase == Alive && replies.Valid()
      modifies this`obuf, this`accepted, replies, Nodes()
      ensures replies.Valid() && fresh(Nodes() - old(Nodes()))
      ensures status.Err? <==> disconnecting || freeing
      ensures if status.Ok?
              then accepted == old(accepted) + [cb] && Waiting() == old(Waiting()) + [cb] && obuf == old(obuf) + len
              else accepted == old(accepted) && Waiting() == old(Waiting()) && obuf == old(obuf)
    {
      hide CallbackList.Valid, CallbackList.Contents;
      if disconnecting || freeing { return Err; }
      replies.Push(cb);
      accepted := accepted + [cb];
      obuf := obuf + len;
      status := Ok;
    }

    /** redisAsyncFree: at once, or left to the event loop when a callback calls it. */
    method Free()
      requires phase == Alive && replies.Valid() && (inCallback || Valid())
      modifies this, replies, Nodes()
      ensures replies.Valid() && fresh(Nodes() - old(Nodes()))
      ensures old(inCallback) ==> inCallback && freeing && disconnecting == old(disconnecting) && Fixed() == old(Fixed())
      ensures old(inCallback) ==> Waiting() == old(Waiting()) && accepted == old(accepted) && log == old(log)
      ensures !old(inCallback) ==> Valid() && phase == Freed && accepted == old(accepted) && old(log) <= log
      ensures !old(inCallback) ==> answers == old(answers) && chunks == old(chunks)
      ensures !old(inCallback) ==> farewells == if onDisconnect && connected then [Ok] else []
      decreases if inCallback then 1 else 6
    {
      hide CallbackList.Valid, CallbackList.Contents;
      freeing := true;
      if !inCallback { Release(); }
    }

    /** redisAsyncDisconnect: at once when nothing waits, or left to the event loop. */
    method RequestDisconnect()
      requires phase == Alive && replies.Valid() && (inCallback || Valid())
      modifies this, replies, Nodes()
      ensures replies.Valid() && fresh(Nodes() - old(Nodes()))
      ensures old(inCallback) ==> inCallback && disconnecting && freeing == old(freeing) && Fixed() == old(Fixed())
      ensures old(inCallback) ==> Waiting() == old(Waiting()) && accepted == old(accepted) && log == old(log)
      ensures !old(inCallback) ==> Valid() && phase == (if old(Waiting()) == [] then Freed else Alive)
      ensures !old(inCallback) ==> disconnecting && accepted == old(accepted) && log == old(log) && chunks == old(chunks)
      ensures phase == Alive ==> Waiting() == old(Waiting()) && connected == old(connected) && obuf == old(obuf)
      ensures phase == Alive ==> reader == old(reader)
      decreases if inCallback then 1 else 6
    {
      hide CallbackList.Valid, CallbackList.Contents, RespStream.FeedAll, CallbacksOf, Surplus;
      disconnecting := true;
      replies.HeadTells();
      if !inCallback && replies.head == null {
        AllAnswered(log, Waiting(), accepted, answers);
        Teardown();
      }
    }

    /** What a callback may do: any calls of these three, in any order. */
    method Reenter()
      requires phase == Alive && inCallback && replies.Valid()
      modifies this, replies, Nodes()
      ensures replies.Valid() && fresh(Nodes() - old(Nodes()))
      ensures inCallback && Fixed() == old(Fixed()) && log == old(log)
      ensures exists more :: accepted == old(accepted) + more && Waiting() == old(Waiting()) + more
      ensures (old(disconnecting) ==> disconnecting) && (old(freeing) ==> freeing)
      ensures old(disconnecting || freeing) ==> accepted == old(accepted) && Waiting() == old(Waiting())
      decreases 2
    {
      hide CallbackList.Valid, CallbackList.Contents;
      var calls: seq<Call<P>> := *;
      ghost var more: seq<Callback<P>> := [];
      for i := 0 to |calls|
        invariant replies.Valid() && fresh(Nodes() - old(Nodes()))
        invariant inCallback && Fixed() == old(Fixed()) && log == old(log)
        invariant accepted == old(accepted) + more && Waiting() == old(Waiting()) + more
        invariant (old(disconnecting) ==> disconnecting) && (old(freeing) ==> freeing)
        invariant old(disconnecting || freeing) ==> more == []
      {
        match calls[i]
        case Issue(cb, len) =>
          var status := Command(cb, len);
          if status.Ok? { more := more + [cb]; }
        case Disconnect => RequestDisconnect();
        case Free => Free();
      }
    }

    /** __redisRunCallback: the callback runs, unless it has no function, and is counted as done either way. */
    method RunCallback(cb: Callback<P>, answer: Answer)
      requires phase == Alive && !inCallback && replies.Valid()
      modifies this, replies, Nodes()
      ensures replies.Valid() && fresh(Nodes() - old(Nodes()))
      ensures !inCallback && Fixed() == old(Fixed()) && log == old(log) + [Ran(cb, answer)]
      ensures exists more :: accepted == old(accepted) + more && Waiting() == old(Waiting()) + more
      ensures (old(disconnecting) ==> disconnecting) && (old(freeing) ==> freeing)
      ensures old(disconnecting || freeing) || !cb.fn ==> accepted == old(accepted) && Waiting() == old(Waiting())
      ensures !cb.fn ==> freeing == old(freeing)
      decreases 3
    {
      hide CallbackList.Valid, CallbackList.Contents;
      log := log + [Ran(cb, answer)];
      assert accepted == old(accepted) + [] && Waiting() == old(Waiting()) + [];
      if cb.fn {
        inCallback := true;
        Reenter();
        inCallback := false;
      }
    }

    // ---- Closing ----

    /** __redisAsyncFree: the waiting callbacks run without a reply; none is added, so this ends. */
    method Release()
      requires Open() && MayClose()
      modifies this, replies, Nodes()
      ensures replies.Valid() && fresh(Nodes() - old(Nodes()))
      ensures Valid() && phase == Freed && accepted == old(accepted) && old(log) <= log
      ensures answers == old(answers) && chunks == old(chunks) && connected == old(connected) && err == old(err)
      ensures old(Waiting()) == [] ==> log == old(log) && freeing == old(freeing) && obuf == old(obuf)
      ensures (old(disconnecting) ==> disconnecting) && (old(freeing) ==> freeing)
      decreases 4, 1
    {
      hide RespStream.FeedAll, CallbacksOf, Received, Surplus, Answered, CallbackList.Valid, CallbackList.Contents;
      while true
        invariant Open() && MayClose() && accepted == old(accepted) && old(log) <= log
        invariant fresh(Nodes() - old(Nodes()))
        invariant answers == old(answers) && chunks == old(chunks) && connected == old(connected) && err == old(err)
        invariant (old(disconnecting) ==> disconnecting) && (old(freeing) ==> freeing)
        invariant old(Waiting()) == [] ==> Waiting() == [] && log == old(log) && freeing == old(freeing) && obuf == old(obuf)
        decreases |Waiting()|
      {
        ghost var before := Waiting();
        var next := replies.Shift();
        if next.Empty? { break; }
        RunUnanswered(next.target);
      }
      if onDisconnect && connected {
        farewells := farewells + [if freeing || !err then Ok else Err];
      }
      assert CallbacksOf(log) + [] == CallbacksOf(log);
      phase := Freed;
    }

    /** A callback that left the queue runs without a reply. */
    method RunUnanswered(cb: Callback<P>)
      requires phase == Alive && !inCallback && replies.Valid() && (disconnecting || freeing)
      requires CallbacksOf(log) + ([cb] + Waiting()) == accepted && Answered(log, answers)
      modifies this, replies, Nodes()
      ensures replies.Valid() && fresh(Nodes() - old(Nodes()))
      ensures !inCallback && Fixed() == old(Fixed()) && old(log) <= log && InOrder()
      ensures accepted == old(accepted) && Waiting() == old(Waiting())
      ensures (old(disconnecting) ==> disconnecting) && (old(freeing) ==> freeing)
      decreases 4, 0
    {
      hide CallbacksOf, CallbackList.Valid, CallbackList.Contents;
      ghost var done := log;
      RunCallback(cb, NoAnswer);
      CallbacksOfAppend(done, Ran(cb, NoAnswer));
    }

    /** __redisAsyncDisconnect: a clean disconnect with callbacks left trips the assertion. */
    method Teardown()
      requires Open() && (freeing || !Surplus(|accepted|, Received(chunks)))
      requires !err ==> disconnecting && !freeing && answers == Received(chunks) && |log| == |answers|
      requires !err && Waiting() != [] ==> obuf == 0
      modifies this, replies, Nodes()
      ensures Valid() && phase == if old(!err && Waiting() != []) then Aborted(CallbacksLeft) else Freed
      ensures replies.Valid() && fresh(Nodes() - old(Nodes()))
      ensures accepted == old(accepted) && old(log) <= log && disconnecting && chunks == old(chunks)
      ensures answers == old(answers) && err == old(err) && connected == old(connected)
      ensures old(Waiting()) == [] ==> log == old(log) && freeing == old(freeing) && obuf == old(obuf)
      ensures phase.Aborted? ==> obuf == old(obuf)
      decreases 5
    {
      hide RespStream.FeedAll, Answered, CallbacksOf, Received, Surplus, CallbackList.Valid, CallbackList.Contents;
      if !err {
        assert CallbacksOf(log) <= accepted;
        CallbacksLength(log);
        var next := replies.Shift();
        if next.Shifted? {
          phase := Aborted(CallbacksLeft);
          return;
        }
      } else {
        disconnecting := true;
      }
      Release();
    }

    // ---- Events ----

    /** The part of redisProcessCallbacks that handles a reply: without a waiting callback an error closes the context,
        and any other reply trips the assertion. */
    method ProcessReply(reply: Reply) returns (finished: bool)
      requires Open() && |log| == |answers| && !err && reader.error.NoError? && !freeing
      requires answers + [reply] <= Received(chunks)
      modifies this, replies, Nodes()
      ensures replies.Valid() && fresh(Nodes() - old(Nodes()))
      ensures old(accepted) <= accepted && old(log) <= log && chunks == old(chunks) && connected == old(connected)
      ensures old(disconnecting) ==> disconnecting && accepted == old(accepted)
      ensures old(Waiting()) == [] ==> finished && accepted == old(accepted) && log == old(log)
      ensures old(Waiting()) == [] ==> phase == if reply.Error? then Freed else Aborted(NoCallbackLeft)
      ensures old(Waiting()) != [] ==> !phase.Aborted? && (finished <==> phase.Freed?)
      ensures finished ==> Valid() && (phase == Freed ==> freeing || err)
      ensures !finished ==> Open() && |log| == |answers| && !err && reader == old(reader) && !freeing
      ensures !finished ==> answers == old(answers) + [reply]
    {
      hide RespStream.FeedAll, Received, CallbacksOf, CallbackList.Valid, CallbackList.Contents, Surplus, Answered;
      var next := replies.Shift();
      if next.Empty? {
        ReplyToNobody(reply);
        return true;
      }
      var cb := next.target;
      RunAnswered(cb, reply);
      finished := cb.fn && freeing;
      if finished { Release(); }
    }

    /** A reply that finds no callback. */
    method ReplyToNobody(reply: Reply)
      requires Open() && |log| == |answers| && !err && !freeing && Waiting() == []
      requires answers + [reply] <= Received(chunks)
      modifies this, replies, Nodes()
      ensures replies.Valid() && fresh(Nodes() - old(Nodes()))
      ensures Valid() && phase == if reply.Error? then Freed else Aborted(NoCallbackLeft)
      ensures accepted == old(accepted) && log == old(log) && chunks == old(chunks) && connected == old(connected)
      ensures (old(disconnecting) ==> disconnecting) && (phase == Freed ==> err)
    {
      hide RespStream.FeedAll, Received, CallbacksOf, CallbackList.Valid, CallbackList.Contents;
      CallbacksLength(log);
      assert CallbacksOf(log) + [] == CallbacksOf(log);
      assert Received(chunks)[|answers|] == reply;
      if reply.Error? {
        err := true;
        Teardown();
      } else {
        phase := Aborted(NoCallbackLeft);
      }
    }

    /** A callback that left the queue runs with its reply. */
    method RunAnswered(cb: Callback<P>, reply: Reply)
      requires phase == Alive && !inCallback && replies.Valid() && |log| == |answers|
      requires CallbacksOf(log) + ([cb] + Waiting()) == accepted && Answered(log, answers)
      modifies this, replies, Nodes()
      ensures replies.Valid() && fresh(Nodes() - old(Nodes()))
      ensures !inCallback && old(log) <= log && |log| == |answers| && InOrder()
      ensures Fixed() == old((phase, connected, err, reader, answers + [reply], chunks, farewells))
      ensures old(accepted) <= accepted && (old(disconnecting) ==> disconnecting && accepted == old(accepted))
      ensures !cb.fn ==> freeing == old(freeing)
    {
      hide CallbacksOf, CallbackList.Valid, CallbackList.Contents;
      ghost var done := log;
      answers := answers + [reply];
      RunCallback(cb, Answer(reply));
      CallbacksOfAppend(done, Ran(cb, Answer(reply)));
    }

    /** The end of redisProcessCallbacks: a broken stream closes the context, and so does a disconnect that waits for
        nothing else. */
    method StopOrClose()
      requires Open() && |log| == |answers| && !err && !freeing
      requires RespStream.FeedAll(RespStream.Fresh, chunks) == (reader, answers)
      modifies this, replies, Nodes()
      ensures replies.Valid() && fresh(Nodes() - old(Nodes()))
      ensures Valid() && accepted == old(accepted) && old(log) <= log && chunks == old(chunks)
      ensures phase == if old(reader.error.Failed?) then Freed else if old(!disconnecting || obuf != 0) then Alive
                       else if old(Waiting()) == [] then Freed else Aborted(CallbacksLeft)
      ensures connected == old(connected) && (old(disconnecting) ==> disconnecting)
      ensures phase == Alive ==> !disconnecting || obuf != 0
      ensures phase == Freed ==> err || (disconnecting && obuf == 0)
    {
      hide RespStream.FeedAll, CallbacksOf, Answered, Surplus, CallbackList.Valid, CallbackList.Contents;
      AllAnswered(log, Waiting(), accepted, answers);
      if reader.error.Failed? {
        err := true;
        Teardown();
      } else if disconnecting && obuf == 0 {
        Teardown();
      }
    }

    /** redisProcessCallbacks. */
    method ProcessCallbacks()
      requires Open() && |log| == |answers| && !err && reader.error.NoError? && !freeing
      requires RespStream.FeedAll(RespStream.Fresh, chunks) ==
               (RespStream.Drain(reader).0, answers + RespStream.Drain(reader).1)
      modifies this, replies, Nodes()
      ensures replies.Valid() && fresh(Nodes() - old(Nodes()))
      ensures Valid() && old(accepted) <= accepted && old(log) <= log && chunks == old(chunks)
      ensures connected == old(connected) && (old(disconnecting) ==> accepted == old(accepted))
      ensures phase == Alive ==> !disconnecting || obuf != 0
      ensures phase == Freed ==> freeing || err || (disconnecting && obuf == 0)
      ensures var got := old(RespStream.Drain(reader).1); old(Waiting()) == [] && got != [] ==>
        phase == if got[0].Error? then Freed else Aborted(NoCallbackLeft)
      ensures old(RespStream.Drain(reader).1 == [] && RespStream.Drain(reader).0.error.NoError?) ==>
        phase == if old(!disconnecting || obuf != 0) then Alive
                 else if old(Waiting()) == [] then Freed else Aborted(CallbacksLeft)
    {
      hide RespStream.Drain, RespStream.FeedAll, RespStream.GetReply, CallbacksOf, Answered, Surplus, CallbackList.Valid, CallbackList.Contents;
      ghost var first := true;
      while true
        invariant Open() && |log| == |answers| && !err && reader.error.NoError? && !freeing
        invariant fresh(Nodes() - old(Nodes()))
        invariant RespStream.FeedAll(RespStream.Fresh, chunks) ==
                  (RespStream.Drain(reader).0, answers + RespStream.Drain(reader).1)
        invariant old(accepted) <= accepted && old(log) <= log && chunks == old(chunks) && connected == old(connected)
        invariant old(disconnecting) ==> disconnecting && accepted == old(accepted)
        invariant first ==> reader == old(reader) && disconnecting == old(disconnecting)
        invariant first ==> obuf == old(obuf) && Waiting() == old(Waiting())
        invariant !first ==> old(RespStream.Drain(reader).1 != [] && Waiting() != [])
        decreases |RespStream.Unread(reader)|
      {
        DrainStep(reader);
        var (next, got) := RespStream.GetReply(reader);
        reader := next;
        if got.Nothing? {
          assert answers + [] == answers;
          StopOrClose();
          return;
        }
        ghost var rest := RespStream.Drain(next).1;
        assert answers + ([got.reply] + rest) == answers + [got.reply] + rest;
        var finished := ProcessReply(got.reply);
        if finished { return; }
        first := false;
      }
    }

    /** __redisAsyncHandleConnect. */
    method HandleConnect(socket: Socket) returns (status: Status)
      requires Valid() && phase == Alive && !connected
      modifies this, replies, Nodes()
      ensures replies.Valid() && fresh(Nodes() - old(Nodes()))
      ensures Valid() && accepted == old(accepted) && old(log) <= log && chunks == old(chunks)
      ensures status.Err? <==> socket.Refused?
      ensures phase == if socket.Refused? then Freed else Alive
      ensures phase == Alive ==> connected == socket.Connected? && Waiting() == old(Waiting()) && obuf == old(obuf)
      ensures phase == Alive ==> disconnecting == old(disconnecting) && reader == old(reader)
    {
      hide RespStream.FeedAll, Answered, CallbacksOf, Surplus, CallbackList.Valid, CallbackList.Contents;
      if socket.Refused? {
        err := true;
        AllAnswered(log, Waiting(), accepted, answers);
        Teardown();
        return Err;
      }
      if socket.Connected? { connected := true; }
      status := Ok;
    }

    /** redisAsyncHandleRead. */
    method HandleRead(socket: Socket, input: Input)
      requires Valid() && phase == Alive
      modifies this, replies, Nodes()
      ensures replies.Valid() && fresh(Nodes() - old(Nodes()))
      ensures Valid() && old(accepted) <= accepted && old(log) <= log
      ensures old(disconnecting) ==> accepted == old(accepted)
      ensures !old(connected) && !socket.Connected? ==>
        chunks == old(chunks) && phase == if socket.Refused? then Freed else Alive
      ensures (old(connected) || socket.Connected?) && input.ReadError? ==> chunks == old(chunks) && phase == Freed
      ensures (old(connected) || socket.Connected?) && input.Arrived? ==>
        chunks == old(chunks) + [input.bytes] && (phase == Alive ==> !disconnecting || obuf != 0) &&
        (phase == Freed ==> freeing || err || (disconnecting && obuf == 0))
      ensures (old(connected) || socket.Connected?) && input.Arrived? && old(Waiting()) == [] ==>
        var got := RespStream.Drain(RespStream.Feed(old(reader), input.bytes)).1;
        got != [] ==> phase == if got[0].Error? then Freed else Aborted(NoCallbackLeft)
      ensures (old(connected) || socket.Connected?) && input.Arrived? && NoNews(old(reader), input.bytes) ==>
        phase == if old(!disconnecting || obuf != 0) then Alive
                 else if old(Waiting()) == [] then Freed else Aborted(CallbacksLeft)
    {
      hide RespStream.Drain, RespStream.FeedAll, RespStream.GetReply, CallbacksOf, Answered, Surplus, CallbackList.Valid, CallbackList.Contents;
      if !connected {
        var status := HandleConnect(socket);
        if status.Err? || !connected { return; }
      }
      match input
      case ReadError =>
        err := true;
        AllAnswered(log, Waiting(), accepted, answers);
        Teardown();
      case Arrived(bytes) =>
        FeedAllAppend(RespStream.Fresh, chunks, bytes);
        reader := RespStream.Feed(reader, bytes);
        chunks := chunks + [bytes];
        ProcessCallbacks();
    }

    /** redisAsyncHandleWrite. */
    method HandleWrite(socket: Socket, output: Output)
      requires Valid() && phase == Alive && (output.Sent? ==> output.n <= obuf)
      modifies this, replies, Nodes()
      ensures replies.Valid() && fresh(Nodes() - old(Nodes()))
      ensures Valid() && accepted == old(accepted) && old(log) <= log && chunks == old(chunks)
      ensures phase == if !old(connected) && socket.Refused? then Freed
                       else if (old(connected) || socket.Connected?) && output.WriteError? then Freed else Alive
      ensures phase == Alive ==> Waiting() == old(Waiting()) && disconnecting == old(disconnecting)
      ensures phase == Alive ==> connected == (old(connected) || socket.Connected?)
      ensures phase == Alive ==> obuf == if connected && output.Sent? then old(obuf) - output.n else old(obuf)
      ensures phase == Alive ==> reader == old(reader)
    {
      hide RespStream.FeedAll, Answered, CallbacksOf, Surplus, CallbackList.Valid, CallbackList.Contents;
      if !connected {
        var status := HandleConnect(socket);
        if status.Err? || !connected { return; }
      }
      match output
      case WriteError =>
        err := true;
        AllAnswered(log, Waiting(), accepted, answers);
        Teardown();
      case Sent(n) =>
        obuf := obuf - n;
    }

    /** Main result: when the context is freed, each accepted command has had its callback exactly once, in the order
        of acceptance: command number k with reply number k of the received bytes, however these were cut into
        reads, and from some command on with no reply. */
    lemma {:induction false} EveryCallbackOnce()
      requires Valid() && phase == Freed
      ensures |log| == |accepted| && forall k :: 0 <= k < |log| ==> log[k].callback == accepted[k]
      ensures answers <= Received([RespStream.Flatten(chunks)])
      ensures forall k :: 0 <= k < |log| ==> log[k].answer == if k < |answers| then Answer(answers[k]) else NoAnswer
    {
      hide RespStream.FeedAll, RespStream.Flatten;
      RespStream.FreshChunksDoNotMatter(chunks);
    }

    /** Main result: exactly when the two assertions have failed. A reply finds no callback if and only if more replies
        have come than commands were accepted, the first one too many is no error, and nobody freed the context before.
        Callbacks are left at a clean disconnect if and only if the context is no longer alive and some accepted
        command has had no callback. */
    lemma {:induction false} WhenAssertionsFail()
      requires Valid()
      ensures phase == Aborted(NoCallbackLeft) <==> !freeing && Surplus(|accepted|, Received([RespStream.Flatten(chunks)]))
      ensures phase == Aborted(CallbacksLeft) <==> phase != Alive && |log| < |accepted|
    {
      hide RespStream.FeedAll, RespStream.Flatten;
      RespStream.FreshChunksDoNotMatter(chunks);
      CallbacksLength(log);
    }
  }

  lemma {:induction false} CallbacksLength<P>(log: seq<Ran<P>>)
    ensures |CallbacksOf(log)| == |log|
  {
  }

  /** When every reply has been given to a command, none is too many. */
  lemma {:induction false} AllAnswered<P>(log: seq<Ran<P>>, waiting: seq<Callback<P>>, accepted: seq<Callback<P>>,
                                          received: seq<Reply>)
    requires CallbacksOf(log) + waiting == accepted && |received| <= |log|
    ensures !Surplus(|accepted|, received)
  {
  }

  lemma {:induction false} CallbacksOfAppend<P>(log: seq<Ran<P>>, r: Ran<P>)
    ensures CallbacksOf(log + [r]) == CallbacksOf(log) + [r.callback]
  {
    assert CallbacksOf(log + [r]) == CallbacksOf(log) + [r.callback];
  }

  /** Taking one reply and draining the rest. */
  lemma {:induction false} DrainStep(r: RespStream.Reader)
    requires RespStream.Valid(r)
    ensures var (next, got) := RespStream.GetReply(r);
            RespStream.Valid(next) &&
            if got.Nothing? then RespStream.Drain(r) == (next, [])
            else |RespStream.Unread(next)| < |RespStream.Unread(r)| && next.error.NoError? &&
                 RespStream.Drain(r) == (RespStream.Drain(next).0, [got.reply] + RespStream.Drain(next).1)
  {
    if RespStream.GetReply(r).1.Got? { RespStream.GetReplyProgress(r); }
  }

  /** One more chunk is drained where the others left the reader. */
  lemma {:induction false} FeedAllAppend(r: RespStream.Reader, chunks: seq<seq<byte>>, bytes: seq<byte>)
    requires RespStream.Valid(r)
    ensures var (r1, replies1) := RespStream.FeedAll(r, chunks);
            var (r2, replies2) := RespStream.Drain(RespStream.Feed(r1, bytes));
            RespStream.FeedAll(r, chunks + [bytes]) == (r2, replies1 + replies2)
    decreases |chunks|
  {
    hide RespStream.Drain, RespStream.Feed;
    var (r2, replies2) := RespStream.Drain(RespStream.Feed(RespStream.FeedAll(r, chunks).0, bytes));
    if chunks == [] {
      assert [bytes][1..] == [] && [] + replies2 == replies2 == replies2 + [];
    } else {
      assert (chunks + [bytes])[1..] == chunks[1..] + [bytes];
      var (r0, replies0) := RespStream.Drain(RespStream.Feed(r, chunks[0]));
      FeedAllAppend(r0, chunks[1..], bytes);
      var replies1 := RespStream.FeedAll(r0, chunks[1..]).1;
      assert replies0 + replies1 + replies2 == replies0 + (replies1 + replies2);
    }
  }

  lemma {:induction false} NothingIsNoNews()
    ensures NoNews(RespStream.Fresh, [])
  {
  }

  /** The assertion of a clean disconnect can fail: a command is written out, the user asks for a disconnect, and the
      socket becomes readable before a reply has arrived. */
  method CleanDisconnectCanFail(cb: Callback<int>) returns (ac: AsyncContext<int>)
    ensures ac.phase == Aborted(CallbacksLeft)
  {
    hide RespStream.Drain, RespStream.FeedAll, RespStream.Feed, NoNews, CallbacksOf, Answered, CallbackList.Valid;
    ac := new AsyncContext(true);
    ac.HandleWrite(Connected, Sent(0));
    var status := ac.Command(cb, 10);
    ac.HandleWrite(Connected, Sent(10));
    ac.RequestDisconnect();
    assert ac.reader == RespStream.Fresh;
    assert NoNews(RespStream.Fresh, []) by { NothingIsNoNews(); }
    ac.HandleRead(Connected, Arrived([]));
  }

  /** The first reply that a fresh reader hands out. */
  lemma {:induction false} FirstReply(w: RespRoundTrip.Wire)
    requires RespRoundTrip.Lines(w) && RespRoundTrip.Depth(w) <= 8
    ensures var got := RespStream.Drain(RespStream.Feed(RespStream.Fresh, RespRoundTrip.Encode(w))).1;
            got != [] && got[0] == RespRoundTrip.Meaning(w)
  {
    hide RespStream.Feed, RespStream.GetReply, RespRoundTrip.Encode, RespRoundTrip.Meaning, RespRoundTrip.Lines;
    RespRoundTrip.ReplyRoundTrip(RespStream.Fresh, w, []);
    assert RespRoundTrip.Encode(w) + [] == RespRoundTrip.Encode(w);
  }

  /** The assertion that a callback is left for a reply can fail: the server sends any reply to a context that has
      issued no command. Only an error reply closes the context instead. */
  method ReplyWithoutCommand(w: RespRoundTrip.Wire) returns (ac: AsyncContext<int>)
    requires RespRoundTrip.Lines(w) && RespRoundTrip.Depth(w) <= 8
    ensures ac.phase == if w.WError? then Freed else Aborted(NoCallbackLeft)
  {
    hide RespStream.Drain, RespStream.Feed, CallbacksOf, Answered, RespRoundTrip.Encode, RespRoundTrip.Lines, RespRoundTrip.Depth;
    ac := new AsyncContext(true);
    ac.HandleWrite(Connected, Sent(0));
    FirstReply(w);
    ac.HandleRead(Connected, Arrived(RespRoundTrip.Encode(w)));
  }
}
