/** The asynchronous client over the reply reader: callbacks and the trees in the byte stream. */
module AsyncStream {
  import opened Bytes
  import opened Resp
  import opened Async
  import M = Machine

  /** What happens to a context, down to the bytes that its socket reads. */
  datatype Wire = User(action: Action) | Received(chunk: bytes) | Sent(n: nat) | ReadFailed | WriteFailed

  /** All the bytes read. */
  function Stream(ws: seq<Wire>): bytes {
    if ws == [] then []
    else
      var before, w := Stream(ws[..|ws| - 1]), ws[|ws| - 1];
      before + if w.Received? then w.chunk else []
  }

  /** The reader after the events: each read is fed to it, and it is polled until it has no reply. */
  function ReaderAfter(ws: seq<Wire>): (r: M.State)
    ensures M.Sound(r)
  {
    if ws == [] then M.FRESH
    else
      var before, w := ReaderAfter(ws[..|ws| - 1]), ws[|ws| - 1];
      if w.Received? then M.Drain(M.Feed(before, w.chunk)).0 else before
  }

  /** The replies that the last event brings. */
  function Replies(ws: seq<Wire>): seq<Reply>
    requires ws != []
  {
    var before, w := ReaderAfter(ws[..|ws| - 1]), ws[|ws| - 1];
    if w.Received? then M.Drain(M.Feed(before, w.chunk)).1 else []
  }

  /** All replies that the reader has given. */
  function Yielded(ws: seq<Wire>): seq<Reply> {
    if ws == [] then [] else Yielded(ws[..|ws| - 1]) + Replies(ws)
  }

  /** The last event, with the replies in place of the bytes. */
  function Lowered(ws: seq<Wire>): Event
    requires ws != []
  {
    match ws[|ws| - 1]
    case User(action) => Call(action)
    case Received(_) => Read(Replies(ws), if ReaderAfter(ws).Dead? then Fault else NoMore)
    case Sent(n) => Written(n)
    case ReadFailed => ReadError
    case WriteFailed => WriteError
  }

  function Events(ws: seq<Wire>): seq<Event> {
    if ws == [] then [] else Events(ws[..|ws| - 1]) + [Lowered(ws)]
  }

  // ---------------------------------------------------------------- the reader sees one stream

  /** Draining before more bytes arrive neither loses nor adds a reply. */
  lemma {:induction false} DrainThenFeed(r: M.State, x: bytes)
    requires M.Sound(r)
    ensures M.Drain(M.Feed(r, x)) == M.Prefixed(M.Drain(r).1, M.Drain(M.Feed(M.Drain(r).0, x)))
    decreases if r.Live? then |r.unread| else 0
  {
    var (r', t) := M.Poll(r);
    M.PollThenFeed(r, x);
    M.DrainPoll(r);
    if t != None {
      DrainThenFeed(r', x);
      M.PrefixedTwice(M.Given(t), M.Drain(r').1, M.Drain(M.Feed(M.Drain(r).0, x)));
    }
  }

  /** However the stream is cut into reads, the replies given are those that draining it all at once
      gives, and the reader ends in the same state. */
  lemma {:induction false} OneStream(ws: seq<Wire>)
    ensures M.Drain(M.Live(M.IDLE, Stream(ws))) == (ReaderAfter(ws), Yielded(ws))
    decreases |ws|
  {
    if ws == [] {
      M.RunEmpty(M.IDLE);
    } else {
      var n := |ws| - 1;
      var before, w := ws[..n], ws[n];
      OneStream(before);
      if w.Received? {
        var r := M.Live(M.IDLE, Stream(before));
        assert M.Feed(r, w.chunk) == M.Live(M.IDLE, Stream(ws));
        DrainThenFeed(r, w.chunk);
      } else {
        NothingAfter(Stream(before));
        NothingAfter(Yielded(before));
      }
    }
  }

  // ---------------------------------------------------------------- the callbacks see its replies

  /** A read dispatches its replies in order, all of them if the context lives on. */
  lemma {:induction false} ProcessedReceives(s: Context, input: seq<Reply>, end: End, script: Script)
    requires Inv(s) && s.phase == Live
    ensures var s' := Processed(s, input, end, script);
            && s'.received <= s.received + input && (s'.phase == Live ==> s'.received == s.received + input)
    decreases |input|
  {
    NothingAfter(s.received);
    if input == [] {
      if end == Fault {
        ClosedReceives(s.(err := true), script);
      } else if s.disconnecting && s.obuf == 0 {
        ClosedReceives(s, script);
      }
    } else if s.replies == [] {
      if input[0].Error? {
        ClosedReceives(s.(err := true), script);
      }
    } else {
      var s' := RunFirst(s, Some(input[0]), script);
      RunFirstBooks(s, Some(input[0]), script);
      RunReceives(s, input[0], script);
      assert input == [input[0]] + input[1..];
      Assoc(s.received, [input[0]], input[1..]);
      if s.replies[0].hasFn && s'.freeing {
        DrainedBooks(s', script);
      } else {
        ProcessedReceives(s', input[1..], end, script);
      }
    }
  }

  lemma ClosedReceives(s: Context, script: Script)
    requires (Closing(s) || s.err) && Books(s) && !s.inCallback && s.phase == Live
    ensures var s' := Disconnected(s, script); s'.received == s.received && s'.phase != Live
  {
    if s.err {
      DrainedBooks(s.(disconnecting := true), script);
    } else if s.replies == [] {
      DrainedBooks(s, script);
    }
  }

  lemma RunReceives(s: Context, reply: Reply, script: Script)
    requires s.replies != []
    ensures RunFirst(s, Some(reply), script).received == s.received + [reply]
  {
    InsideWithin(Shifted(s, Some(reply)).(inCallback := true), script(|s.retired|));
  }

  lemma EventsSnoc(ws: seq<Wire>, script: Script)
    requires ws != []
    ensures Run(Events(ws), script) == Step(Run(Events(ws[..|ws| - 1]), script), Lowered(ws), script)
  {
    var before := Events(ws[..|ws| - 1]);
    assert Events(ws)[..|before|] == before;
  }

  /** The replies that an event brings. */
  function InputOf(e: Event): seq<Reply> {
    if e.Read? then e.input else []
  }

  lemma StepReceives(s: Context, e: Event, script: Script)
    requires Inv(s) && s.phase == Live
    ensures var s' := Step(s, e, script);
            s'.received <= s.received + InputOf(e) && (s'.phase == Live ==> s'.received == s.received + InputOf(e))
  {
    NothingAfter(s.received);
    match e {
      case Call(Issue(_, _)) =>
      case Call(Free) => DrainedBooks(s.(freeing := true), script);
      case Call(Disconnect) => if s.replies == [] { ClosedReceives(s.(disconnecting := true), script); }
      case Read(input, end) => ProcessedReceives(s, input, end, script);
      case Written(_) =>
      case ReadError => ClosedReceives(s.(err := true), script);
      case WriteError => ClosedReceives(s.(err := true), script);
    }
  }

  lemma LoweredInput(ws: seq<Wire>)
    requires ws != []
    ensures InputOf(Lowered(ws)) == Replies(ws)
  {
  }

  lemma {:induction false} ReceivedOfStream(ws: seq<Wire>, script: Script)
    ensures var s := Run(Events(ws), script);
            s.received <= Yielded(ws) && (s.phase == Live ==> s.received == Yielded(ws))
    decreases |ws|
  {
    if ws != [] {
      var before := ws[..|ws| - 1];
      var s := Run(Events(before), script);
      ReceivedOfStream(before, script);
      EventsSnoc(ws, script);
      RunInv(Events(before), script);
      if s.phase == Live {
        StepReceives(s, Lowered(ws), script);
        LoweredInput(ws);
      }
    }
  }

  /** However the byte stream is cut into reads, and whatever else happens in between: the k-th
      accepted callback gets the k-th tree of the stream, or NULL if the context was closed first;
      while the context lives, every tree that is complete in the stream has been delivered. */
  lemma KthCallbackGetsKthTree(ws: seq<Wire>, script: Script)
    ensures var s, trees := Run(Events(ws), script), M.Drain(M.Live(M.IDLE, Stream(ws))).1;
            && |s.received| <= |s.retired| <= |s.accepted| && |s.received| <= |trees|
            && (forall k :: 0 <= k < |s.retired| ==>
                  && s.retired[k].cb == s.accepted[k]
                  && s.retired[k].reply == if k < |s.received| then Some(trees[k]) else None)
            && (s.phase == Live ==> |s.retired| == |trees|)
            && (s.phase == Freed ==> |s.retired| == |s.accepted|)
  {
    OneStream(ws);
    ReceivedOfStream(ws, script);
    CallbacksInOrder(Events(ws), script);
  }

  /** So a server that sends the encodings of the trees ts has the k-th of them handed to the k-th
      accepted callback, whatever the network does to the pieces. */
  lemma ServerIsHeard(ws: seq<Wire>, script: Script, ts: seq<Reply>)
    requires (forall t :: t in ts ==> Readable(t, 0)) && Stream(ws) == EncodeAll(ts)
    ensures var s := Run(Events(ws), script);
            && |s.received| <= |ts| && |s.received| <= |s.retired| <= |s.accepted|
            && (s.phase == Live ==> |s.retired| == |ts|)
            && forall k :: 0 <= k < |s.received| ==> s.retired[k] == Retired(s.accepted[k], Some(ts[k]))
  {
    M.DrainEncoded(ts);
    KthCallbackGetsKthTree(ws, script);
  }
}
