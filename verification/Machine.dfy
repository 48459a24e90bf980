/** The reader's explicit task stack as a machine on values, its refinement of recursive descent,
    and its independence of how the input is cut into chunks and when it is polled.

    The class in module Reader is proved to take exactly these steps. */
module Machine {
  import opened Bytes
  import opened Resp
  import opened RespRoundTrip

  /** An array being read: `done` are its first elements, fewer than `count`. */
  datatype Frame = Frame(count: nat, done: seq<Reply>)

  /** The open arrays, outermost first, and the type of the current item once its byte is read. */
  datatype Task = Task(stack: seq<Frame>, kind: Option<Kind>)

  const IDLE: Task := Task([], None)

  /** At most eight arrays are open, each of them lacks an element, and below the eighth no
      further array is being waited for. */
  predicate WellFormed(m: Task) {
    && |m.stack| <= MAX_LEVEL && !(m.kind == Some(KArray) && |m.stack| == MAX_LEVEL)
    && forall i :: 0 <= i < |m.stack| ==> |m.stack[i].done| < m.stack[i].count
  }

  // ---------------------------------------------------------------- one step

  datatype Next = Continue(task: Task) | Finished(reply: Reply)

  /** `moveToNextTask`: a completed item goes into the innermost open array, completing it and
      its parents as far as they are full. */
  function Attach(stack: seq<Frame>, r: Reply): (n: Next)
    requires WellFormed(Task(stack, None))
    ensures n.Continue? ==> WellFormed(n.task) && 0 < |n.task.stack| <= |stack| && n.task.kind == None
    decreases |stack|
  {
    if stack == [] then Finished(r)
    else
      var below, top := stack[..|stack| - 1], stack[|stack| - 1];
      var done := top.done + [r];
      if |done| == top.count then Attach(below, Array(done))
      else Continue(Task(below + [Frame(top.count, done)], None))
  }

  datatype Outcome =
    | Progress(task: Task, rest: bytes)
    | Emit(reply: Reply, rest: bytes)
    | Wait(task: Task, rest: bytes)
    | Stop(fault: Fault)

  function After(n: Next, rest: bytes): Outcome {
    match n
    case Continue(m) => Progress(m, rest)
    case Finished(r) => Emit(r, rest)
  }

  /** `processItem` once the type is known. */
  function TypedStep(stack: seq<Frame>, k: Kind, s: bytes): (o: Outcome)
    requires WellFormed(Task(stack, None))
    ensures o.Progress? || o.Wait? ==> WellFormed(o.task)
    ensures o.Progress? || o.Emit? ==> |o.rest| < |s|
    ensures o.Wait? ==> o.rest == s
  {
    match ReadItem(k, |stack|, s)
    case Incomplete => Wait(Task(stack, Some(k)), s)
    case Overflow => Stop(TooDeep)
    case Leaf(r, size) => After(Attach(stack, r), s[size..])
    case Header(count, size) => Progress(Task(stack + [Frame(count, [])], None), s[size..])
  }

  /** `processItem`. */
  function Step(m: Task, s: bytes): (o: Outcome)
    requires WellFormed(m)
    ensures o.Progress? || o.Wait? ==> WellFormed(o.task)
    ensures o.Progress? || o.Emit? ==> |o.rest| < |s|
    ensures o.Wait? ==> |o.rest| <= |s|
  {
    match m.kind
    case Some(k) => TypedStep(m.stack, k, s)
    case None =>
      if s == [] then Wait(m, s)
      else match KindOf(s[0])
        case None => Stop(BadTypeByte(s[0]))
        case Some(k) => TypedStep(m.stack, k, s[1..])
  }

  /** The item loop of `redisReaderGetReply`: it ends because every step eats a byte. */
  function Run(m: Task, s: bytes): (o: Outcome)
    requires WellFormed(m)
    ensures !o.Progress?
    ensures o.Wait? ==> WellFormed(o.task)
    ensures o.Emit? ==> |o.rest| < |s|
    decreases |s|
  {
    match Step(m, s)
    case Progress(m', rest) => Run(m', rest)
    case o => o
  }

  // ---------------------------------------------------------------- refinement of recursive descent

  /** What is left to do once the innermost item has been parsed. */
  function Resume(stack: seq<Frame>, p: Parsed): Outcome
    requires WellFormed(Task(stack, None))
    requires p.Done?
  {
    match Attach(stack, p.reply)
    case Continue(m) => Run(m, p.rest)
    case Finished(r) => Emit(r, p.rest)
  }

  /** The machine's outcome o is the one recursive descent, resumed under `stack`, leads to. */
  ghost predicate Agrees(o: Outcome, stack: seq<Frame>, p: Parsed)
    requires WellFormed(Task(stack, None))
  {
    match p
    case Done(_, _) => o == Resume(stack, p)
    case NeedMore => o.Wait?
    case Failed(f) => o == Stop(f)
  }

  /** From any stack the machine does what parsing one reply at that level does. */
  lemma {:induction false} RunRefinesParse(stack: seq<Frame>, s: bytes)
    requires WellFormed(Task(stack, None))
    ensures Agrees(Run(Task(stack, None), s), stack, Parse(s, |stack|))
    decreases |s|, 0
  {
    if s != [] && KindOf(s[0]).Some? {
      match ReadItem(KindOf(s[0]).value, |stack|, s[1..])
      case Header(count, size) => RunRefinesElements(stack, count, [], s[1..][size..]);
      case _ =>
    }
  }

  lemma {:induction false} RunRefinesElements(stack: seq<Frame>, count: nat, acc: seq<Reply>, s: bytes)
    requires WellFormed(Task(stack, None)) && |stack| < MAX_LEVEL && |acc| < count
    ensures Agrees(Run(Task(stack + [Frame(count, acc)], None), s), stack, ParseElements(count, acc, s, |stack| + 1))
    decreases |s|, 1
  {
    var inner := stack + [Frame(count, acc)];
    RunRefinesParse(inner, s);
    var p := Parse(s, |inner|);
    if p.Done? {
      assert inner[..|inner| - 1] == stack;
      if |acc| + 1 < count {
        RunRefinesElements(stack, count, acc + [p.reply], p.rest);
      }
    }
  }

  /** The stack machine refines recursive descent. */
  lemma MachineRefinesDescent(s: bytes)
    ensures match Parse(s, 0)
            case Done(t, rest) => Run(IDLE, s) == Emit(t, rest)
            case NeedMore => Run(IDLE, s).Wait?
            case Failed(f) => Run(IDLE, s) == Stop(f)
  {
    RunRefinesParse([], s);
  }

  /** Reading an encoded tree emits exactly that tree and leaves exactly what follows it, if and
      only if the tree's arrays sit at levels 0..7 and its lines have no "\r\n". */
  lemma ReadsEncodedTree(t: Reply, rest: bytes)
    ensures Run(IDLE, Encode(t) + rest) == Emit(t, rest) <==> Readable(t, 0)
  {
    MachineRefinesDescent(Encode(t) + rest);
    RoundTripIff(t, rest, 0);
  }

  // ---------------------------------------------------------------- input in pieces

  /** The outcome o of a run, as it would be had x been in the buffer behind its input. */
  function Extended(o: Outcome, x: bytes): Outcome
    requires !o.Progress?
    requires o.Wait? ==> WellFormed(o.task)
  {
    match o
    case Emit(r, rest) => Emit(r, rest + x)
    case Stop(f) => Stop(f)
    case Wait(m, rest) => Run(m, rest + x)
  }

  /** A step that got somewhere gets to the same place with more bytes behind. */
  lemma TypedStepExtended(stack: seq<Frame>, k: Kind, s: bytes, x: bytes)
    requires WellFormed(Task(stack, None))
    ensures match TypedStep(stack, k, s)
            case Progress(m, rest) => TypedStep(stack, k, s + x) == Progress(m, rest + x)
            case Emit(r, rest) => TypedStep(stack, k, s + x) == Emit(r, rest + x)
            case Stop(f) => TypedStep(stack, k, s + x) == Stop(f)
            case Wait(m, rest) => m == Task(stack, Some(k)) && rest == s
  {
    var item := ReadItem(k, |stack|, s);
    if item != Incomplete {
      ReadItemMonotone(k, |stack|, s, x);
    }
    if item.Leaf? || item.Header? {
      assert (s + x)[item.size..] == s[item.size..] + x;
    }
  }

  /** Waiting and going on later is the same as having had all the bytes at once. */
  lemma {:induction false} RunExtended(m: Task, s: bytes, x: bytes)
    requires WellFormed(m)
    ensures Run(m, s + x) == Extended(Run(m, s), x)
    decreases |s|
  {
    if m.kind.Some? {
      TypedStepExtended(m.stack, m.kind.value, s, x);
    } else if s != [] && KindOf(s[0]).Some? {
      assert (s + x)[1..] == s[1..] + x;
      TypedStepExtended(m.stack, KindOf(s[0]).value, s[1..], x);
    } else if s == [] {
      assert Run(m, s) == Wait(m, s);
    }
    var o := Step(m, s);
    if o.Progress? {
      RunExtended(o.task, o.rest, x);
    }
  }

  /** As long as the last byte of a tree is missing, the reader waits: it never gives a reply, or an
      error, too early. */
  lemma PrefixWaits(t: Reply, n: nat)
    requires Readable(t, 0) && n < |Encode(t)|
    ensures Run(IDLE, Encode(t)[..n]).Wait?
  {
    var s, x := Encode(t)[..n], Encode(t)[n..];
    assert s + x == Encode(t) + [];
    ReadsEncodedTree(t, []);
    RunExtended(IDLE, s, x);
  }

  // ---------------------------------------------------------------- sessions

  /** A reader between calls: what it is in the middle of and its unread bytes, or its error. */
  datatype State = Live(task: Task, unread: bytes) | Dead(fault: Fault)

  const FRESH: State := Live(IDLE, [])

  predicate Sound(r: State) {
    r.Live? ==> WellFormed(r.task)
  }

  /** `redisReaderFeed`. */
  function Feed(r: State, chunk: bytes): (r': State)
    requires Sound(r)
    ensures Sound(r')
  {
    if r.Dead? then r else r.(unread := r.unread + chunk)
  }

  /** `redisReaderGetReply`. */
  function Poll(r: State): (res: (State, Option<Reply>))
    requires Sound(r)
    ensures Sound(res.0)
    ensures res.1.Some? ==> r.Live? && res.0.Live? && |res.0.unread| < |r.unread|
  {
    if r.Dead? then (r, None)
    else match Run(r.task, r.unread)
      case Emit(t, rest) => (Live(IDLE, rest), Some(t))
      case Wait(m, rest) => (Live(m, rest), None)
      case Stop(f) => (Dead(f), None)
  }

  datatype Call = FeedCall(chunk: bytes) | PollCall

  /** A sequence of calls: the reader's last state and the replies it gave, in order. */
  function Session(r: State, calls: seq<Call>): (res: (State, seq<Reply>))
    requires Sound(r)
    ensures Sound(res.0)
    decreases |calls|
  {
    if calls == [] then (r, [])
    else match calls[0]
      case FeedCall(chunk) => Session(Feed(r, chunk), calls[1..])
      case PollCall =>
        var (r', t) := Poll(r);
        var (r'', ts) := Session(r', calls[1..]);
        (r'', Given(t) + ts)
  }

  /** The replies of one poll. */
  function Given(t: Option<Reply>): seq<Reply> {
    match t case None => [] case Some(r) => [r]
  }

  lemma RunEmpty(m: Task)
    requires WellFormed(m)
    ensures Run(m, []) == Wait(m, [])
  {
  }

  /** Polling until there is no reply. */
  function Drain(r: State): (res: (State, seq<Reply>))
    requires Sound(r)
    ensures Sound(res.0)
    decreases if r.Live? then |r.unread| else 0
  {
    var (r', t) := Poll(r);
    if t == None then (r', [])
    else
      var (r'', ts) := Drain(r');
      (r'', [t.value] + ts)
  }

  /** Everything the calls feed. */
  function Fed(calls: seq<Call>): bytes {
    if calls == [] then []
    else (if calls[0].FeedCall? then calls[0].chunk else []) + Fed(calls[1..])
  }

  /** What is still to come, with the replies given already in front. */
  function Prefixed(given: seq<Reply>, d: (State, seq<Reply>)): (State, seq<Reply>) {
    (d.0, given + d.1)
  }

  lemma PrefixedTwice(a: seq<Reply>, b: seq<Reply>, d: (State, seq<Reply>))
    ensures Prefixed(a, Prefixed(b, d)) == Prefixed(a + b, d)
  {
    assert a + (b + d.1) == (a + b) + d.1;
  }

  lemma DrainPoll(r: State)
    requires Sound(r)
    ensures Poll(r).1 == None ==> Drain(r) == (Poll(r).0, [])
    ensures Poll(r).1 != None ==> Drain(r) == Prefixed(Given(Poll(r).1), Drain(Poll(r).0))
  {
  }

  lemma SamePollSameDrain(r: State, q: State)
    requires Sound(r) && Sound(q)
    requires Poll(r) == Poll(q)
    ensures Drain(r) == Drain(q)
  {
  }

  /** A poll before more bytes arrive neither loses nor adds a reply. */
  lemma PollThenFeed(r: State, x: bytes)
    requires Sound(r)
    ensures Drain(Feed(r, x)) == Prefixed(Given(Poll(r).1), Drain(Feed(Poll(r).0, x)))
  {
    var (r', t) := Poll(r);
    var later := Drain(Feed(r', x));
    if r.Live? {
      RunExtended(r.task, r.unread, x);
    }
    if t == None {
      SamePollSameDrain(Feed(r, x), Feed(r', x));
      assert Given(t) + later.1 == later.1;
    } else {
      assert Poll(Feed(r, x)) == (Feed(r', x), t);
    }
  }

  /** Whatever is drained after a session. */
  function Total(r: State, calls: seq<Call>): (State, seq<Reply>)
    requires Sound(r)
  {
    var s := Session(r, calls);
    var d := Drain(s.0);
    (d.0, s.1 + d.1)
  }

  lemma TotalPoll(r: State, calls: seq<Call>)
    requires Sound(r) && calls != [] && calls[0] == PollCall
    ensures Total(r, calls) == Prefixed(Given(Poll(r).1), Total(Poll(r).0, calls[1..]))
  {
    var s := Session(Poll(r).0, calls[1..]);
    var g := Given(Poll(r).1);
    Assoc(g, s.1, Drain(s.0).1);
  }

  lemma TotalFeed(r: State, calls: seq<Call>)
    requires Sound(r) && calls != [] && calls[0].FeedCall?
    ensures Total(r, calls) == Total(Feed(r, calls[0].chunk), calls[1..])
  {
  }

  lemma TotalNone(r: State)
    requires Sound(r)
    ensures Total(r, []) == Drain(r)
  {
    assert [] + Drain(r).1 == Drain(r).1;
  }

  lemma FeedsJoin(r: State, a: bytes, b: bytes)
    requires Sound(r)
    ensures Feed(Feed(r, a), b) == Feed(r, a + b) && Feed(r, []) == r
  {
    if r.Live? {
      assert (r.unread + a) + b == r.unread + (a + b);
    }
  }

  lemma {:induction false} SessionThenDrain(r: State, calls: seq<Call>)
    requires Sound(r)
    ensures Drain(Feed(r, Fed(calls))) == Total(r, calls)
    decreases |calls|
  {
    if calls == [] {
      FeedsJoin(r, [], []);
      TotalNone(r);
    } else {
      var rest := Fed(calls[1..]);
      match calls[0]
      case FeedCall(chunk) =>
        SessionThenDrain(Feed(r, chunk), calls[1..]);
        TotalFeed(r, calls);
        FeedsJoin(r, chunk, rest);
      case PollCall =>
        SessionThenDrain(Poll(r).0, calls[1..]);
        TotalPoll(r, calls);
        PollThenFeed(r, rest);
        assert Fed(calls) == rest;
    }
  }

  /** Chunk invariance: however the stream is cut into feeds and whenever the reader is polled,
      after a final drain the replies and the final state are those of one feed of it all. */
  lemma ChunkInvariance(calls: seq<Call>)
    ensures Total(FRESH, calls) == Drain(Live(IDLE, Fed(calls)))
  {
    SessionThenDrain(FRESH, calls);
    assert [] + Fed(calls) == Fed(calls);
  }

  lemma DrainReply(t: Reply, s: bytes)
    requires Readable(t, 0)
    ensures Drain(Live(IDLE, Encode(t) + s)) == Prefixed([t], Drain(Live(IDLE, s)))
  {
    ReadsEncodedTree(t, s);
    assert Poll(Live(IDLE, Encode(t) + s)) == (Live(IDLE, s), Some(t));
  }

  lemma {:induction false} DrainEncoded(ts: seq<Reply>)
    requires forall t :: t in ts ==> Readable(t, 0)
    ensures Drain(Live(IDLE, EncodeAll(ts))) == (FRESH, ts)
    decreases |ts|
  {
    if ts == [] {
      assert Poll(FRESH) == (FRESH, None);
    } else {
      DrainReply(ts[0], EncodeAll(ts[1..]));
      DrainEncoded(ts[1..]);
      assert [ts[0]] + ts[1..] == ts;
    }
  }

  /** A server that sends the trees ts, in whatever pieces, has exactly ts delivered, in order,
      and the reader ends idle with an empty buffer. */
  lemma StreamDelivered(ts: seq<Reply>, calls: seq<Call>)
    requires forall t :: t in ts ==> Readable(t, 0)
    requires Fed(calls) == EncodeAll(ts)
    ensures Total(FRESH, calls) == (FRESH, ts)
  {
    ChunkInvariance(calls);
    DrainEncoded(ts);
  }

  /** An error is final: no later call brings a reply or clears it. */
  lemma {:induction false} ErrorsStick(f: Fault, calls: seq<Call>)
    ensures Session(Dead(f), calls) == (Dead(f), [])
    decreases |calls|
  {
    if calls != [] {
      ErrorsStick(f, calls[1..]);
      assert Given(None) + [] == [];
    }
  }
}
