/** The callback protocol of `async.c`: replies are matched with callbacks in the order of the
    commands, callbacks may issue commands or ask for the context to be freed, and the context is
    torn down once, after every callback still waiting has been told so. */
module Async {
  import opened Bytes
  import opened Resp

  /** A callback; hasFn is false for a NULL function. */
  datatype Callback = Callback(id: nat, hasFn: bool)

  /** What user code may do with the context: issue a command of `len` bytes, free the context, or
      disconnect from it. */
  datatype Action = Issue(cb: Callback, len: nat) | Free | Disconnect

  /** What the user's callbacks do: the actions of the one that runs when n callbacks are done with. */
  type Script = nat -> seq<Action>

  /** A callback that is done with, and the reply it got; none stands for NULL. */
  datatype Retired = Retired(cb: Callback, reply: Option<Reply>)

  datatype Phase = Live | Freed | Aborted

  /** The context, with its history: the callbacks accepted, those done with, and the replies
      dispatched. */
  datatype Context = Context(
    replies: seq<Callback>, disconnecting: bool, freeing: bool, inCallback: bool, err: bool, obuf: nat,
    phase: Phase, frees: nat, retired: seq<Retired>, accepted: seq<Callback>, received: seq<Reply>)

  const Fresh: Context := Context([], false, false, false, false, 0, Live, 0, [], [], [])

  // ---------------------------------------------------------------- what the functions compute

  predicate Closing(s: Context) {
    s.disconnecting || s.freeing
  }

  /** `__redisAsyncCommand`, for commands other than SUBSCRIBE, UNSUBSCRIBE and MONITOR. */
  function Issued(s: Context, cb: Callback, len: nat): Context {
    if Closing(s) then s
    else s.(replies := s.replies + [cb], accepted := s.accepted + [cb], obuf := s.obuf + len)
  }

  /** An action of a callback that is running. */
  function ActInside(s: Context, a: Action): Context {
    match a
    case Issue(cb, len) => Issued(s, cb, len)
    case Free => s.(freeing := true)
    case Disconnect => s.(disconnecting := true)
  }

  function ActsInside(s: Context, actions: seq<Action>): Context
    decreases |actions|
  {
    if actions == [] then s else ActsInside(ActInside(s, actions[0]), actions[1..])
  }

  /** The first callback is shifted off the queue, to get the reply. */
  function Shifted(s: Context, reply: Option<Reply>): Context
    requires s.replies != []
  {
    s.(replies := s.replies[1..], retired := s.retired + [Retired(s.replies[0], reply)],
       received := s.received + if reply.Some? then [reply.value] else [])
  }

  /** The first callback is shifted off the queue and run. */
  function RunFirst(s: Context, reply: Option<Reply>, script: Script): Context
    requires s.replies != []
  {
    var s' := Shifted(s, reply);
    if s.replies[0].hasFn then ActsInside(s'.(inCallback := true), script(|s.retired|)).(inCallback := false) else s'
  }

  lemma {:induction false} ActsRefused(s: Context, actions: seq<Action>)
    requires Closing(s)
    ensures var s' := ActsInside(s, actions);
            Closing(s') && s' == s.(freeing := s'.freeing, disconnecting := s'.disconnecting)
    decreases |actions|
  {
    if actions != [] {
      ActsRefused(ActInside(s, actions[0]), actions[1..]);
    }
  }

  /** The loop of `__redisAsyncFree` over the pending callbacks: as no new command is accepted, it
      ends with the queue. */
  function Drained(s: Context, script: Script): Context
    requires Closing(s)
    decreases |s.replies|
  {
    if s.replies == [] then s
    else
      assert Closing(RunFirst(s, None, script)) && |RunFirst(s, None, script).replies| < |s.replies| by {
        RunRefused(s, None, script);
      }
      Drained(RunFirst(s, None, script), script)
  }

  /** A callback that runs while the context closes adds nothing to the queue. */
  lemma RunRefused(s: Context, reply: Option<Reply>, script: Script)
    requires Closing(s) && s.replies != []
    ensures var s' := RunFirst(s, reply, script);
            && Closing(s') && s'.replies == s.replies[1..] && s'.accepted == s.accepted
  {
    ActsRefused(Shifted(s, reply).(inCallback := true), script(|s.retired|));
  }

  /** `__redisAsyncFree`. */
  function Torn(s: Context, script: Script): Context
    requires Closing(s)
  {
    var s' := Drained(s, script);
    s'.(phase := Freed, frees := s'.frees + 1)
  }

  /** `__redisAsyncDisconnect`; the assertion fails on a clean disconnect with callbacks waiting. */
  function Disconnected(s: Context, script: Script): Context
    requires Closing(s) || s.err
  {
    if s.err then Torn(s.(disconnecting := true), script)
    else if s.replies == [] then Torn(s, script)
    else s.(phase := Aborted)
  }

  /** How a read of the socket ends: with the input used up, or with a protocol error. */
  datatype End = NoMore | Fault

  /** `redisProcessCallbacks`, on the replies that the reader has for it. */
  function Processed(s: Context, input: seq<Reply>, end: End, script: Script): Context
    decreases |input|
  {
    if input == [] then
      (if end == Fault then Disconnected(s.(err := true), script)
       else if s.disconnecting && s.obuf == 0 then Disconnected(s, script)
       else s)
    else if s.replies == [] then
      (if input[0].Error? then Disconnected(s.(err := true), script)
       else s.(phase := Aborted))
    else
      var s' := RunFirst(s, Some(input[0]), script);
      if s.replies[0].hasFn && s'.freeing then Torn(s', script) else Processed(s', input[1..], end, script)
  }

  // ---------------------------------------------------------------- whole runs

  /** What happens to a context: calls of the user from outside callbacks, and socket events. A
      write sends n bytes of the output buffer. */
  datatype Event =
    | Call(action: Action)
    | Read(input: seq<Reply>, end: End)
    | ReadError
    | Written(n: nat)
    | WriteError

  function Step(s: Context, e: Event, script: Script): Context {
    if s.phase != Live then s
    else
      match e
      case Call(Issue(cb, len)) => Issued(s, cb, len)
      case Call(Free) => Torn(s.(freeing := true), script)
      case Call(Disconnect) =>
        var s' := s.(disconnecting := true);
        if s.replies == [] then Disconnected(s', script) else s'
      case Read(input, end) => Processed(s, input, end, script)
      case Written(n) => s.(obuf := if n < s.obuf then s.obuf - n else 0)
      case ReadError => Disconnected(s.(err := true), script)
      case WriteError => Disconnected(s.(err := true), script)
  }

  function Run(events: seq<Event>, script: Script): Context {
    if events == [] then Fresh else Step(Run(events[..|events| - 1], script), events[|events| - 1], script)
  }

  function Callbacks(retired: seq<Retired>): seq<Callback> {
    seq(|retired|, i requires 0 <= i < |retired| => retired[i].cb)
  }

  /** The callbacks done with and those waiting are the accepted ones, in order; the first ones got
      the replies, in order, and the others none. */
  ghost predicate Books(s: Context) {
    && s.accepted == Callbacks(s.retired) + s.replies
    && |s.received| <= |s.retired|
    && (forall k :: 0 <= k < |s.received| ==> s.retired[k].reply == Some(s.received[k]))
    && (forall k :: |s.received| <= k < |s.retired| ==> s.retired[k].reply == None)
  }

  /** What holds between events: while the context is live, all callbacks done with got a reply. */
  ghost predicate Inv(s: Context) {
    && Books(s) && !s.inCallback && s.frees == (if s.phase == Freed then 1 else 0)
    && (s.phase == Live ==> |s.received| == |s.retired| && !s.freeing && !s.err)
    && (s.phase == Freed ==> s.replies == [] && Closing(s))
  }

  /** What a callback does to the context while it runs: it adds commands to the queue, and sets
      flags. In particular the context is never freed while a callback is on the stack. */
  ghost predicate Within(s: Context, s': Context) {
    && s' == s.(replies := s'.replies, accepted := s'.accepted, obuf := s'.obuf, freeing := s'.freeing,
                disconnecting := s'.disconnecting)
    && |s.replies| <= |s'.replies| && s'.replies[..|s.replies|] == s.replies
    && s'.accepted == s.accepted + s'.replies[|s.replies|..]
    && (s.freeing ==> s'.freeing) && (s.disconnecting ==> s'.disconnecting)
  }

  lemma WithinOne(s: Context, a: Action)
    ensures Within(s, ActInside(s, a))
  {
    assert s.accepted == s.accepted + s.replies[|s.replies|..];
  }

  lemma Extends<T>(x: seq<T>, y: seq<T>, z: seq<T>)
    requires |x| <= |y| <= |z| && y[..|x|] == x && z[..|y|] == y
    ensures z[..|x|] == x && y[|x|..] + z[|y|..] == z[|x|..]
  {
    assert z == y + z[|y|..];
  }

  lemma WithinThrough(s: Context, t: Context, u: Context)
    requires Within(s, t) && Within(t, u)
    ensures Within(s, u)
  {
    Extends(s.replies, t.replies, u.replies);
    Assoc(s.accepted, t.replies[|s.replies|..], u.replies[|t.replies|..]);
  }

  lemma {:induction false} InsideWithin(s: Context, actions: seq<Action>)
    ensures Within(s, ActsInside(s, actions)) == true
    decreases |actions|
  {
    if actions == [] {
      assert s.accepted == s.accepted + s.replies[|s.replies|..];
    } else {
      WithinOne(s, actions[0]);
      InsideWithin(ActInside(s, actions[0]), actions[1..]);
      WithinThrough(s, ActInside(s, actions[0]), ActsInside(s, actions));
    }
  }

  lemma CallbacksSnoc(retired: seq<Retired>, r: Retired)
    ensures Callbacks(retired + [r]) == Callbacks(retired) + [r.cb]
  {
  }

  lemma ShiftedBooks(s: Context, reply: Option<Reply>)
    requires Books(s) && s.replies != [] && (reply.Some? ==> |s.received| == |s.retired|)
    ensures Books(Shifted(s, reply))
  {
    CallbacksSnoc(s.retired, Retired(s.replies[0], reply));
    assert s.replies == [s.replies[0]] + s.replies[1..];
  }

  lemma WithinBooks(s: Context, s': Context)
    requires Books(s) && Within(s, s')
    ensures Books(s')
  {
    assert s'.replies == s.replies + s'.replies[|s.replies|..];
  }

  /** Running the first callback keeps the books, if replies come before NULLs. */
  lemma RunFirstBooks(s: Context, reply: Option<Reply>, script: Script)
    requires Books(s) && s.replies != [] && !s.inCallback && (reply.Some? ==> |s.received| == |s.retired|)
    ensures var s' := RunFirst(s, reply, script);
            && Books(s') == true && !s'.inCallback && s'.phase == s.phase && s'.frees == s.frees && s'.err == s.err
            && |s'.retired| == |s.retired| + 1 && |s'.received| == |s.received| + (if reply.Some? then 1 else 0)
            && (Closing(s) ==> Closing(s')) && (!s.replies[0].hasFn ==> s'.freeing == s.freeing)
  {
    ShiftedBooks(s, reply);
    if s.replies[0].hasFn {
      var t := Shifted(s, reply).(inCallback := true);
      var s' := ActsInside(t, script(|s.retired|));
      InsideWithin(t, script(|s.retired|));
      WithinBooks(t, s');
    }
  }

  lemma {:induction false} DrainedBooks(s: Context, script: Script)
    requires Closing(s) && Books(s) && !s.inCallback
    ensures var s' := Drained(s, script);
            && Books(s') && !s'.inCallback && s'.replies == [] && s'.accepted == s.accepted && s'.received == s.received
            && s'.phase == s.phase && s'.frees == s.frees && Closing(s')
    decreases |s.replies|
  {
    if s.replies != [] {
      RunRefused(s, None, script);
      RunFirstBooks(s, None, script);
      RunKeepsReceived(s, script);
      DrainedBooks(RunFirst(s, None, script), script);
    }
  }

  lemma RunKeepsReceived(s: Context, script: Script)
    requires s.replies != []
    ensures RunFirst(s, None, script).received == s.received
  {
    InsideWithin(Shifted(s, None).(inCallback := true), script(|s.retired|));
    assert s.received + [] == s.received;
  }

  lemma TornInv(s: Context, script: Script)
    requires Closing(s) && Books(s) && !s.inCallback && s.frees == 0
    ensures Inv(Torn(s, script)) && Torn(s, script).phase == Freed && Torn(s, script).accepted == s.accepted
  {
    DrainedBooks(s, script);
  }

  lemma DisconnectedInv(s: Context, script: Script)
    requires (Closing(s) || s.err) && Books(s) && !s.inCallback && s.frees == 0
    ensures Inv(Disconnected(s, script)) && Disconnected(s, script).accepted == s.accepted
    ensures Disconnected(s, script).phase == if s.err || s.replies == [] then Freed else Aborted
  {
    if s.err {
      TornInv(s.(disconnecting := true), script);
    } else if s.replies == [] {
      TornInv(s, script);
    }
  }

  lemma {:induction false} ProcessedInv(s: Context, input: seq<Reply>, end: End, script: Script)
    requires Inv(s) && s.phase == Live
    ensures Inv(Processed(s, input, end, script))
    decreases |input|
  {
    if input == [] {
      if end == Fault {
        DisconnectedInv(s.(err := true), script);
      } else if s.disconnecting && s.obuf == 0 {
        DisconnectedInv(s, script);
      }
    } else if s.replies == [] {
      if input[0].Error? {
        DisconnectedInv(s.(err := true), script);
      }
    } else {
      var s' := RunFirst(s, Some(input[0]), script);
      RunFirstBooks(s, Some(input[0]), script);
      if s.replies[0].hasFn && s'.freeing {
        TornInv(s', script);
      } else {
        ProcessedInv(s', input[1..], end, script);
      }
    }
  }

  /** What every step keeps. */
  lemma StepInv(s: Context, e: Event, script: Script)
    requires Inv(s)
    ensures Inv(Step(s, e, script))
  {
    if s.phase == Live {
      match e {
        case Call(Issue(cb, len)) =>
          assert s.accepted + [cb] == Callbacks(s.retired) + (s.replies + [cb]);
        case Call(Free) => TornInv(s.(freeing := true), script);
        case Call(Disconnect) =>
          if s.replies == [] { DisconnectedInv(s.(disconnecting := true), script); }
        case Read(input, end) => ProcessedInv(s, input, end, script);
        case Written(n) =>
        case ReadError => DisconnectedInv(s.(err := true), script);
        case WriteError => DisconnectedInv(s.(err := true), script);
      }
    }
  }

  lemma {:induction false} RunInv(events: seq<Event>, script: Script)
    ensures Inv(Run(events, script))
  {
    if events != [] {
      RunInv(events[..|events| - 1], script);
      StepInv(Run(events[..|events| - 1], script), events[|events| - 1], script);
    }
  }

  /** In every run, whatever the callbacks do: callbacks are done with in the order in which their
      commands were accepted, the k-th one with the k-th reply and, after a teardown, the rest with
      NULL; once the context is freed every accepted callback has been done with exactly once; the
      context is freed at most once. */
  lemma CallbacksInOrder(events: seq<Event>, script: Script)
    ensures var s := Run(events, script);
            && |s.received| <= |s.retired| <= |s.accepted|
            && (forall k :: 0 <= k < |s.retired| ==>
                  && s.retired[k].cb == s.accepted[k]
                  && s.retired[k].reply == if k < |s.received| then Some(s.received[k]) else None)
            && (s.phase == Live ==> |s.retired| == |s.received|)
            && (s.phase == Freed ==> |s.retired| == |s.accepted|)
            && s.frees <= 1
  {
    RunInv(events, script);
    var s := Run(events, script);
    forall k | 0 <= k < |s.retired| ensures s.retired[k].cb == s.accepted[k] {
      assert s.accepted[k] == Callbacks(s.retired)[k];
    }
  }

  // ---------------------------------------------------------------- what the callbacks of a read do

  /** The commands accepted among some actions. */
  function Accepts(closing: bool, acts: seq<Action>): seq<Callback> {
    if acts == [] || closing then []
    else if acts[0].Issue? then [acts[0].cb] + Accepts(false, acts[1..])
    else []
  }

  /** What they add to the output buffer. */
  function Output(closing: bool, acts: seq<Action>): nat {
    if acts == [] || closing then 0
    else if acts[0].Issue? then acts[0].len + Output(false, acts[1..])
    else 0
  }

  /** The action a is among the actions. */
  predicate Does(acts: seq<Action>, a: Action) {
    acts != [] && (acts[0] == a || Does(acts[1..], a))
  }

  /** Some action frees the context or disconnects it. */
  predicate Closes(acts: seq<Action>) {
    Does(acts, Free) || Does(acts, Disconnect)
  }

  /** What the first k callbacks that get a reply do, one after the other: first those waiting, then
      those of the commands issued meanwhile. */
  function Doings(s: Context, script: Script, k: nat): seq<Action>
    decreases k
  {
    if k == 0 then [] else Doings(s, script, k - 1) + NextDoing(s, script, Doings(s, script, k - 1), k - 1)
  }

  /** What callback i does, after the actions `before`. */
  function NextDoing(s: Context, script: Script, before: seq<Action>, i: nat): seq<Action> {
    var queue := s.replies + Accepts(Closing(s), before);
    if i < |queue| && queue[i].hasFn then script(|s.retired| + i) else []
  }

  /** How many callbacks wait after k replies. */
  function Waiting(s: Context, script: Script, k: nat): int {
    |s.replies| + |Accepts(Closing(s), Doings(s, script, k))| - k
  }

  /** The queue lasts for k replies. */
  ghost predicate Lasts(s: Context, script: Script, k: nat) {
    forall i :: 0 <= i < k ==> Waiting(s, script, i) > 0
  }

  /** After k replies of a read an assertion fails: the next reply is not an error and nothing waits
      for it; or there is none, a disconnect was asked for, all is written, and callbacks wait. */
  ghost predicate AbortsAt(s: Context, input: seq<Reply>, end: End, script: Script, k: nat) {
    var acts := Doings(s, script, k);
    && k <= |input| && Lasts(s, script, k) && !Does(acts, Free)
    && if k < |input| then Waiting(s, script, k) == 0 && !input[k].Error?
       else
         && end == NoMore && (s.disconnecting || Does(acts, Disconnect))
         && s.obuf + Output(Closing(s), acts) == 0 && Waiting(s, script, k) > 0
  }

  // ---------------------------------------------------------------- and that they do just that

  lemma {:induction false} ActsClosed(s: Context, acts: seq<Action>)
    ensures var s' := ActsInside(s, acts);
            && s'.replies == s.replies + Accepts(Closing(s), acts) && s'.obuf == s.obuf + Output(Closing(s), acts)
            && s'.freeing == (s.freeing || Does(acts, Free))
            && s'.disconnecting == (s.disconnecting || Does(acts, Disconnect))
            && s'.retired == s.retired && s'.phase == s.phase
    decreases |acts|
  {
    if acts == [] {
      NothingAfter(s.replies);
    } else {
      var t := ActInside(s, acts[0]);
      ActsClosed(t, acts[1..]);
      assert acts == [acts[0]] + acts[1..];
      if acts[0].Issue? && !Closing(s) {
        Assoc(s.replies, [acts[0].cb], Accepts(false, acts[1..]));
      } else {
        assert acts[0].Issue? || Closing(t);
        NothingAfter(s.replies);
      }
    }
  }

  lemma {:induction false} AcceptsSplit(closing: bool, x: seq<Action>, y: seq<Action>)
    ensures Accepts(closing, x + y) == Accepts(closing, x) + Accepts(closing || Closes(x), y)
    ensures Output(closing, x + y) == Output(closing, x) + Output(closing || Closes(x), y)
    decreases |x|
  {
    if x == [] {
      NothingBefore(y);
      NothingBefore(Accepts(closing, y));
    } else {
      ConsParts(x[0], x[1..]);
      assert x == [x[0]] + x[1..];
      Assoc([x[0]], x[1..], y);
      ConsParts(x[0], x[1..] + y);
      if x[0].Issue? && !closing {
        AcceptsSplit(false, x[1..], y);
        Assoc([x[0].cb], Accepts(false, x[1..]), Accepts(Closes(x[1..]), y));
      }
    }
  }

  lemma {:induction false} DoesSplit(x: seq<Action>, y: seq<Action>, a: Action)
    ensures Does(x + y, a) <==> Does(x, a) || Does(y, a)
    decreases |x|
  {
    if x == [] {
      NothingBefore(y);
    } else {
      assert x == [x[0]] + x[1..];
      Assoc([x[0]], x[1..], y);
      ConsParts(x[0], x[1..] + y);
      DoesSplit(x[1..], y, a);
    }
  }

  /** The context s' is s with the first callback of its queue done with, after what that does. */
  ghost predicate Follows(s: Context, s': Context, script: Script) {
    var acts := Doings(s, script, 1);
    && s.replies != [] && |s'.retired| == |s.retired| + 1
    && s'.replies == (s.replies + Accepts(Closing(s), acts))[1..] && s'.obuf == s.obuf + Output(Closing(s), acts)
    && s'.freeing == (s.freeing || Does(acts, Free)) && s'.disconnecting == (s.disconnecting || Does(acts, Disconnect))
  }

  lemma FirstDoing(s: Context, reply: Option<Reply>, script: Script)
    requires s.replies != []
    ensures Doings(s, script, 1) == (if s.replies[0].hasFn then script(|s.retired|) else [])
    ensures Follows(s, RunFirst(s, reply, script), script)
  {
    var acts := if s.replies[0].hasFn then script(|s.retired|) else [];
    OneDoing(s, script, acts);
    if s.replies[0].hasFn {
      ActsClosed(Shifted(s, reply).(inCallback := true), acts);
    } else {
      NothingAfter(s.replies[1..]);
    }
    DropFirst(s.replies, Accepts(Closing(s), acts));
  }

  lemma OneDoing(s: Context, script: Script, acts: seq<Action>)
    requires s.replies != [] && acts == if s.replies[0].hasFn then script(|s.retired|) else []
    ensures Doings(s, script, 1) == acts
  {
    assert Doings(s, script, 0) == [] && Accepts(Closing(s), []) == [];
    NothingAfter(s.replies);
    NothingBefore(acts);
  }

  lemma DropFirst<T>(x: seq<T>, y: seq<T>)
    requires x != []
    ensures (x + y)[1..] == x[1..] + y
  {
  }

  /** The doings from the second callback on are those of the state after the first. */
  ghost predicate Shifts(s: Context, s': Context, script: Script, k: nat) {
    Doings(s, script, k + 1) == Doings(s, script, 1) + Doings(s', script, k)
  }

  lemma DoingsShift(s: Context, s': Context, script: Script, k: nat)
    requires Follows(s, s', script) == true
    ensures Doings(s, script, k + 1) == Doings(s, script, 1) + Doings(s', script, k)
  {
    DoingsShifted(s, s', script, k);
    assert Shifts(s, s', script, k);
  }

  lemma DoingsShifted(s: Context, s': Context, script: Script, k: nat)
    requires Follows(s, s', script) == true
    ensures Shifts(s, s', script, k) == true
  {
    ShiftsFirst(s, s', script);
    var i := 0;
    while i < k
      invariant 0 <= i <= k && Shifts(s, s', script, i) == true
    {
      ShiftsNext(s, s', script, i);
      i := i + 1;
    }
  }

  lemma ShiftsFirst(s: Context, s': Context, script: Script)
    ensures Shifts(s, s', script, 0)
  {
    NothingAfter(Doings(s, script, 1));
  }

  lemma ShiftsNext(s: Context, s': Context, script: Script, k: nat)
    requires Follows(s, s', script) == true && Shifts(s, s', script, k)
    ensures Shifts(s, s', script, k + 1)
  {
    var first, before := Doings(s, script, 1), Doings(s', script, k);
    SameDoing(s, s', script, first, before, k);
    Assoc(first, before, NextDoing(s', script, before, k));
  }

  lemma SameDoing(s: Context, s': Context, script: Script, first: seq<Action>, before: seq<Action>, k: nat)
    requires Follows(s, s', script) == true && first == Doings(s, script, 1)
    ensures NextDoing(s, script, first + before, k + 1) == NextDoing(s', script, before, k)
  {
    QueueShift(s, s', script, first, before);
    DropAt(s.replies + Accepts(Closing(s), first + before), k);
    assert |s'.retired| == |s.retired| + 1 && s.replies != [] by { assert Follows(s, s', script); }
  }

  lemma DropAt<T>(x: seq<T>, k: nat)
    requires x != []
    ensures |x[1..]| == |x| - 1 && (k < |x| - 1 ==> x[1..][k] == x[k + 1])
  {
  }

  /** The queue after more actions, seen from before and from after the first callback. */
  lemma QueueShift(s: Context, s': Context, script: Script, first: seq<Action>, more: seq<Action>)
    requires Follows(s, s', script) && first == Doings(s, script, 1)
    ensures s'.replies + Accepts(Closing(s'), more) == (s.replies + Accepts(Closing(s), first + more))[1..]
    ensures s'.obuf + Output(Closing(s'), more) == s.obuf + Output(Closing(s), first + more)
  {
    AcceptsSplit(Closing(s), first, more);
    Assoc(s.replies, Accepts(Closing(s), first), Accepts(Closing(s'), more));
    DropFirst(s.replies + Accepts(Closing(s), first), Accepts(Closing(s'), more));
  }

  lemma WaitingShift(s: Context, s': Context, script: Script, k: nat)
    requires Follows(s, s', script) == true
    ensures Waiting(s, script, k + 1) == Waiting(s', script, k)
  {
    DoingsShift(s, s', script, k);
    QueueShift(s, s', script, Doings(s, script, 1), Doings(s', script, k));
  }

  lemma LastsShift(s: Context, s': Context, script: Script, k: nat)
    requires Follows(s, s', script) == true
    ensures Lasts(s, script, k + 1) <==> Lasts(s', script, k)
  {
    forall i | 0 <= i < k ensures Waiting(s, script, i + 1) == Waiting(s', script, i) {
      WaitingShift(s, s', script, i);
    }
    assert Waiting(s, script, 0) > 0;
    if Lasts(s', script, k) {
      forall i | 0 <= i < k + 1 ensures Waiting(s, script, i) > 0 {
        assert i > 0 ==> Waiting(s', script, i - 1) > 0;
      }
    }
  }

  /** What is known of a read after its first callback, in terms of the read as a whole. */
  lemma AbortsShift(s: Context, s': Context, input: seq<Reply>, end: End, script: Script, k: nat)
    requires Follows(s, s', script) && input != [] && !Does(Doings(s, script, 1), Free)
    ensures AbortsAt(s, input, end, script, k + 1) <==> AbortsAt(s', input[1..], end, script, k)
  {
    DoingsShift(s, s', script, k);
    LastsShift(s, s', script, k);
    WaitingShift(s, s', script, k);
    QueueShift(s, s', script, Doings(s, script, 1), Doings(s', script, k));
    DoesSplit(Doings(s, script, 1), Doings(s', script, k), Free);
    DoesSplit(Doings(s, script, 1), Doings(s', script, k), Disconnect);
  }

  /** A read ends the program in a failed assertion, of either kind, if and only if that happens
      after some number of replies, judging by what the callbacks do. */
  lemma {:induction false} AbortsIff(s: Context, input: seq<Reply>, end: End, script: Script)
    requires Inv(s) && s.phase == Live
    ensures Processed(s, input, end, script).phase == Aborted <==> exists k :: AbortsAt(s, input, end, script, k)
    decreases |input|
  {
    if input == [] {
      assert Doings(s, script, 0) == [];
      assert AbortsAt(s, input, end, script, 0) <==> end == NoMore && s.disconnecting && s.obuf == 0 && s.replies != [];
      if end == Fault {
        DisconnectedInv(s.(err := true), script);
      } else if s.disconnecting && s.obuf == 0 {
        DisconnectedInv(s, script);
      }
    } else if s.replies == [] {
      assert Doings(s, script, 0) == [] && Waiting(s, script, 0) == 0;
      assert AbortsAt(s, input, end, script, 0) <==> !input[0].Error?;
      if input[0].Error? {
        DisconnectedInv(s.(err := true), script);
      }
    } else {
      AbortsIffMore(s, input, end, script);
    }
  }

  lemma {:induction false} AbortsIffMore(s: Context, input: seq<Reply>, end: End, script: Script)
    requires Inv(s) && s.phase == Live && input != [] && s.replies != []
    ensures Processed(s, input, end, script).phase == Aborted <==> exists k :: AbortsAt(s, input, end, script, k)
    decreases |input|, 0
  {
    var s' := RunFirst(s, Some(input[0]), script);
    RunFirstBooks(s, Some(input[0]), script);
    FirstDoing(s, Some(input[0]), script);
    assert !AbortsAt(s, input, end, script, 0);
    if s.replies[0].hasFn && s'.freeing {
      TornInv(s', script);
      forall k: nat | k > 0 ensures !AbortsAt(s, input, end, script, k) {
        DoingsShift(s, s', script, k - 1);
        DoesSplit(Doings(s, script, 1), Doings(s', script, k - 1), Free);
      }
    } else {
      AbortsIff(s', input[1..], end, script);
      if k: nat :| AbortsAt(s, input, end, script, k) {
        if k > 0 { AbortsShift(s, s', input, end, script, k - 1); }
      }
      if k: nat :| AbortsAt(s', input[1..], end, script, k) {
        AbortsShift(s, s', input, end, script, k);
      }
    }
  }

  // ---------------------------------------------------------------- which reads free the context

  /** After k replies of a read the context is freed: a callback has freed it; or the next reply is an
      error that nothing waits for; or the replies end in a protocol error; or there is none left, a
      disconnect was asked for, all is written, and nothing waits. */
  ghost predicate FreesAt(s: Context, input: seq<Reply>, end: End, script: Script, k: nat) {
    var acts := Doings(s, script, k);
    && k <= |input| && Lasts(s, script, k)
    && (|| Does(acts, Free)
        || (k < |input| && Waiting(s, script, k) == 0 && input[k].Error?)
        || (k == |input| && end == Fault)
        || (k == |input| && (s.disconnecting || Does(acts, Disconnect))
            && s.obuf + Output(Closing(s), acts) == 0 && Waiting(s, script, k) == 0))
  }

  lemma FreesShift(s: Context, s': Context, input: seq<Reply>, end: End, script: Script, k: nat)
    requires Follows(s, s', script) && input != [] && !Does(Doings(s, script, 1), Free)
    ensures FreesAt(s, input, end, script, k + 1) <==> FreesAt(s', input[1..], end, script, k)
  {
    DoingsShift(s, s', script, k);
    LastsShift(s, s', script, k);
    WaitingShift(s, s', script, k);
    QueueShift(s, s', script, Doings(s, script, 1), Doings(s', script, k));
    DoesSplit(Doings(s, script, 1), Doings(s', script, k), Free);
    DoesSplit(Doings(s, script, 1), Doings(s', script, k), Disconnect);
  }

  /** A read ends with the context freed if and only if that happens after some number of replies. */
  lemma {:induction false} FreesIff(s: Context, input: seq<Reply>, end: End, script: Script)
    requires Inv(s) && s.phase == Live
    ensures Processed(s, input, end, script).phase == Freed <==> exists k :: FreesAt(s, input, end, script, k)
    decreases |input|
  {
    if input == [] {
      assert Doings(s, script, 0) == [] && Waiting(s, script, 0) == |s.replies|;
      assert FreesAt(s, input, end, script, 0) <==>
             end == Fault || (s.disconnecting && s.obuf == 0 && s.replies == []);
      if end == Fault {
        DisconnectedInv(s.(err := true), script);
      } else if s.disconnecting && s.obuf == 0 {
        DisconnectedInv(s, script);
      }
    } else if s.replies == [] {
      assert Doings(s, script, 0) == [] && Waiting(s, script, 0) == 0;
      assert FreesAt(s, input, end, script, 0) <==> input[0].Error?;
      if input[0].Error? {
        DisconnectedInv(s.(err := true), script);
      }
    } else {
      FreesIffMore(s, input, end, script);
    }
  }

  lemma {:induction false} FreesIffMore(s: Context, input: seq<Reply>, end: End, script: Script)
    requires Inv(s) && s.phase == Live && input != [] && s.replies != []
    ensures Processed(s, input, end, script).phase == Freed <==> exists k :: FreesAt(s, input, end, script, k)
    decreases |input|, 0
  {
    var s' := RunFirst(s, Some(input[0]), script);
    RunFirstBooks(s, Some(input[0]), script);
    FirstDoing(s, Some(input[0]), script);
    assert Doings(s, script, 0) == [] && Waiting(s, script, 0) == |s.replies|;
    assert !FreesAt(s, input, end, script, 0);
    if s.replies[0].hasFn && s'.freeing {
      TornInv(s', script);
      assert FreesAt(s, input, end, script, 1);
    } else {
      FreesIff(s', input[1..], end, script);
      if k: nat :| FreesAt(s, input, end, script, k) {
        if k > 0 { FreesShift(s, s', input, end, script, k - 1); }
      }
      if k: nat :| FreesAt(s', input[1..], end, script, k) {
        FreesShift(s, s', input, end, script, k);
      }
    }
  }

  // ---------------------------------------------------------------- the clean disconnect

  /** The replies of a read are enough for the commands waiting, and are followed by none, or by an
      error. */
  predicate Suffices(input: seq<Reply>, waiting: nat) {
    |input| == waiting || (|input| > waiting && input[waiting].Error?)
  }

  /** The context t frees with every waiting command answered by its own reply if the replies
      suffice, and is stopped by a failed assertion if they do not. */
  ghost predicate Concluded(s: Context, t: Context, input: seq<Reply>) {
    && t.accepted == s.accepted
    && if Suffices(input, |s.replies|) then t.phase == Freed && t.received == s.received + input[..|s.replies|]
       else t.phase == Aborted
  }

  lemma ConcludedStep(s: Context, s': Context, t: Context, input: seq<Reply>)
    requires s.replies != [] && input != [] && s'.replies == s.replies[1..] && s'.accepted == s.accepted
    requires s'.received == s.received + [input[0]] && Concluded(s', t, input[1..])
    ensures Concluded(s, t, input)
  {
    var n := |s.replies|;
    if Suffices(input, n) {
      assert input[..n] == [input[0]] + input[1..][..n - 1];
      Assoc(s.received, [input[0]], input[1..][..n - 1]);
    }
  }

  /** A read after a disconnect was asked for and all was written, if no callback frees the context:
      it ends with the context freed and every waiting command answered if its replies suffice, and
      else in a failed assertion. */
  lemma {:induction false} LastRead(s: Context, input: seq<Reply>, script: Script)
    requires Inv(s) && s.phase == Live && s.disconnecting && s.obuf == 0
    requires !Does(Doings(s, script, |s.replies|), Free)
    ensures Concluded(s, Processed(s, input, NoMore, script), input) == true
    decreases |input|
  {
    if input == [] {
      DisconnectedInv(s, script);
      NothingAfter(s.received);
    } else if s.replies == [] {
      NothingAfter(s.received);
    } else {
      var s' := RunFirst(s, Some(input[0]), script);
      RunFirstBooks(s, Some(input[0]), script);
      RunRefused(s, Some(input[0]), script);
      RunGives(s, input[0], script);
      FirstDoing(s, Some(input[0]), script);
      NoFreeLeft(s, s', script);
      LastRead(s', input[1..], script);
      ConcludedStep(s, s', Processed(s, input, NoMore, script), input);
    }
  }

  lemma NoFreeLeft(s: Context, s': Context, script: Script)
    requires Follows(s, s', script) && !Does(Doings(s, script, |s.replies|), Free) && s'.replies == s.replies[1..]
    requires !s.freeing && s.disconnecting && s.obuf == 0
    ensures !Does(Doings(s', script, |s'.replies|), Free) && !s'.freeing && s'.disconnecting && s'.obuf == 0
  {
    DoingsShift(s, s', script, |s'.replies|);
    DoesSplit(Doings(s, script, 1), Doings(s', script, |s'.replies|), Free);
    assert Output(true, Doings(s, script, 1)) == 0;
  }

  /** The k-th reply is the one the k-th callback gets. */
  lemma RunGives(s: Context, reply: Reply, script: Script)
    requires s.replies != []
    ensures RunFirst(s, Some(reply), script).received == s.received + [reply]
  {
    InsideWithin(Shifted(s, Some(reply)).(inCallback := true), script(|s.retired|));
  }

  lemma {:induction false} ProcessedStays(s: Context, input: seq<Reply>, end: End, script: Script)
    requires Inv(s) && s.phase == Live && s.disconnecting
    ensures Processed(s, input, end, script).phase == Live ==> Processed(s, input, end, script).disconnecting
    decreases |input|
  {
    if input == [] {
      if end == Fault { DisconnectedInv(s.(err := true), script); }
    } else if s.replies == [] {
      if input[0].Error? { DisconnectedInv(s.(err := true), script); }
    } else {
      var s' := RunFirst(s, Some(input[0]), script);
      RunFirstBooks(s, Some(input[0]), script);
      FirstDoing(s, Some(input[0]), script);
      if s.replies[0].hasFn && s'.freeing {
        TornInv(s', script);
      } else {
        ProcessedStays(s', input[1..], end, script);
      }
    }
  }

  /** A context that was asked to disconnect, and still lives, goes on disconnecting. */
  lemma {:induction false} DisconnectStays(events: seq<Event>, script: Script)
    requires Call(Disconnect) in events && Run(events, script).phase == Live
    ensures Run(events, script).disconnecting
  {
    var n := |events| - 1;
    var s, e := Run(events[..n], script), events[n];
    assert events == events[..n] + [e];
    RunInv(events[..n], script);
    if e == Call(Disconnect) {
      if s.replies == [] { DisconnectedInv(s.(disconnecting := true), script); }
    } else {
      DisconnectStays(events[..n], script);
      match e {
        case Call(_) =>
        case Read(input, end) => ProcessedStays(s, input, end, script);
        case Written(_) =>
        case ReadError => DisconnectedInv(s.(err := true), script);
        case WriteError => DisconnectedInv(s.(err := true), script);
      }
    }
  }

  /** `redisAsyncDisconnect` frees the context at once if nothing waits, and else only marks it. */
  lemma DisconnectCall(events: seq<Event>, script: Script)
    requires Run(events, script).phase == Live
    ensures var s, s' := Run(events, script), Run(events + [Call(Disconnect)], script);
            s' == s.(disconnecting := true, phase := if s.replies == [] then Freed else Live,
                     frees := if s.replies == [] then 1 else 0)
  {
    RunInv(events, script);
    assert (events + [Call(Disconnect)])[..|events|] == events;
  }

  /** What a write sends and what it leaves make up what there was to send. */
  lemma WrittenExact(events: seq<Event>, n: nat, script: Script)
    requires Run(events, script).phase == Live
    ensures var s, s' := Run(events, script), Run(events + [Written(n)], script);
            s'.obuf + (if n <= s.obuf then n else s.obuf) == s.obuf && s' == s.(obuf := s'.obuf)
  {
    assert (events + [Written(n)])[..|events|] == events;
  }

  /** The clean disconnect: once a disconnect was asked for and all is written, a read whose replies
      suffice for the commands waiting frees the context, and every command accepted has been
      answered with its own reply; any other read ends in the failed assertion. */
  lemma CleanDisconnect(events: seq<Event>, input: seq<Reply>, script: Script)
    requires Call(Disconnect) in events && Run(events, script).phase == Live && Run(events, script).obuf == 0
    requires !Does(Doings(Run(events, script), script, |Run(events, script).replies|), Free)
    ensures var s, s' := Run(events, script), Run(events + [Read(input, NoMore)], script);
            if Suffices(input, |s.replies|) then
              && s'.phase == Freed && s'.replies == [] && s'.accepted == s.accepted
              && s'.received == s.received + input[..|s.replies|] && |s'.retired| == |s'.received| == |s'.accepted|
              && forall k :: 0 <= k < |s'.accepted| ==> s'.retired[k] == Retired(s'.accepted[k], Some(s'.received[k]))
            else s'.phase == Aborted
  {
    var s, events' := Run(events, script), events + [Read(input, NoMore)];
    RunInv(events, script);
    DisconnectStays(events, script);
    assert events'[..|events|] == events;
    LastRead(s, input, script);
    RunInv(events', script);
    CallbacksInOrder(events', script);
  }

  /** From any live context with commands waiting: a disconnect, a write of all that is left and a
      read of replies that suffice free it, with every command answered. */
  lemma DisconnectWriteRead(events: seq<Event>, n: nat, input: seq<Reply>, script: Script)
    requires var s := Run(events, script);
             && s.phase == Live && s.replies != [] && n >= s.obuf && Suffices(input, |s.replies|)
             && !Does(Doings(s.(disconnecting := true, obuf := 0), script, |s.replies|), Free)
    ensures var s := Run(events, script);
            var s' := Run(events + [Call(Disconnect)] + [Written(n)] + [Read(input, NoMore)], script);
            && s'.phase == Freed && s'.accepted == s.accepted && s'.received == s.received + input[..|s.replies|]
            && |s'.retired| == |s'.received| == |s'.accepted|
  {
    DisconnectWritten(events, n, script);
    CleanDisconnect(events + [Call(Disconnect)] + [Written(n)], input, script);
  }

  lemma DisconnectWritten(events: seq<Event>, n: nat, script: Script)
    requires var s := Run(events, script); s.phase == Live && s.replies != [] && n >= s.obuf
    ensures var s, events' := Run(events, script), events + [Call(Disconnect)] + [Written(n)];
            Call(Disconnect) in events' && Run(events', script) == s.(disconnecting := true, obuf := 0)
  {
    var asked := events + [Call(Disconnect)];
    RunInv(events, script);
    DisconnectCall(events, script);
    WrittenExact(asked, n, script);
    assert (asked + [Written(n)])[|events|] == Call(Disconnect);
  }

  // ---------------------------------------------------------------- which runs never abort

  /** A read brings no more replies than there are commands waiting. */
  ghost predicate Answered(s: Context, e: Event) {
    s.phase == Live && e.Read? ==> |e.input| <= |s.replies|
  }

  ghost predicate AllAnswered(events: seq<Event>, script: Script) {
    events == []
    || (var n := |events| - 1; AllAnswered(events[..n], script) && Answered(Run(events[..n], script), events[n]))
  }

  /** With such a read, and no disconnect asked for before it or in it, no assertion fails. */
  lemma QuietRead(s: Context, input: seq<Reply>, end: End, script: Script)
    requires Inv(s) && s.phase == Live && !s.disconnecting && |input| <= |s.replies|
    requires forall n :: !Does(script(n), Disconnect)
    ensures Processed(s, input, end, script).phase != Aborted
  {
    AbortsIff(s, input, end, script);
    forall k: nat ensures !AbortsAt(s, input, end, script, k) {
      NoDisconnect(s, script, k);
    }
  }

  lemma {:induction false} NoDisconnect(s: Context, script: Script, k: nat)
    requires forall n :: !Does(script(n), Disconnect)
    ensures !Does(Doings(s, script, k), Disconnect)
    decreases k
  {
    if k > 0 {
      NoDisconnect(s, script, k - 1);
      DoesSplit(Doings(s, script, k - 1), NextDoing(s, script, Doings(s, script, k - 1), k - 1), Disconnect);
    }
  }

  lemma {:induction false} QuietStays(s: Context, input: seq<Reply>, end: End, script: Script)
    requires Inv(s) && s.phase == Live && !s.disconnecting && forall n :: !Does(script(n), Disconnect)
    ensures Processed(s, input, end, script).phase == Live ==> !Processed(s, input, end, script).disconnecting
    decreases |input|
  {
    if input == [] {
      if end == Fault { DisconnectedInv(s.(err := true), script); }
    } else if s.replies == [] {
      if input[0].Error? { DisconnectedInv(s.(err := true), script); }
    } else {
      var s' := RunFirst(s, Some(input[0]), script);
      RunFirstBooks(s, Some(input[0]), script);
      FirstDoing(s, Some(input[0]), script);
      if s.replies[0].hasFn && s'.freeing {
        TornInv(s', script);
      } else {
        QuietStays(s', input[1..], end, script);
      }
    }
  }

  /** A run in which nobody asks for a disconnect and no read brings more replies than there are
      commands waiting never ends in a failed assertion. */
  lemma {:induction false} NeverAborts(events: seq<Event>, script: Script)
    requires (forall n :: !Does(script(n), Disconnect)) && Call(Disconnect) !in events && AllAnswered(events, script)
    ensures Run(events, script).phase != Aborted
    ensures Run(events, script).phase == Live ==> !Run(events, script).disconnecting
  {
    if events != [] {
      var n := |events| - 1;
      var s, e := Run(events[..n], script), events[n];
      NeverAborts(events[..n], script);
      RunInv(events[..n], script);
      if s.phase == Live {
        match e {
          case Call(Issue(_, _)) =>
          case Call(Free) => TornInv(s.(freeing := true), script);
          case Call(Disconnect) =>
          case Read(input, end) =>
            QuietRead(s, input, end, script);
            QuietStays(s, input, end, script);
          case Written(_) =>
          case ReadError => DisconnectedInv(s.(err := true), script);
          case WriteError => DisconnectedInv(s.(err := true), script);
        }
      }
    }
  }

  // ---------------------------------------------------------------- which events end a run

  /** The events that end a run: errors of the socket, `redisAsyncFree`, `redisAsyncDisconnect` with
      nothing waiting, and the reads that free the context. */
  ghost predicate Ending(s: Context, e: Event, script: Script) {
    || e == ReadError || e == WriteError || e == Call(Free) || (e == Call(Disconnect) && s.replies == [])
    || (e.Read? && exists k :: FreesAt(s, e.input, e.end, script, k))
  }

  /** Those events and no others free the context, and tear it down completely: every accepted
      callback has been done with. */
  lemma TeardownCompletes(events: seq<Event>, e: Event, script: Script)
    requires Run(events, script).phase == Live
    ensures var s' := Run(events + [e], script);
            && (s'.phase == Freed <==> Ending(Run(events, script), e, script))
            && (s'.phase == Freed ==> s'.replies == [] && |s'.retired| == |s'.accepted|)
  {
    RunInv(events, script);
    var s := Run(events, script);
    assert (events + [e])[..|events|] == events;
    RunInv(events + [e], script);
    match e {
      case Call(Issue(_, _)) =>
      case Call(Free) => TornInv(s.(freeing := true), script);
      case Call(Disconnect) =>
        if s.replies == [] { DisconnectedInv(s.(disconnecting := true), script); }
      case Read(input, end) => FreesIff(s, input, end, script);
      case Written(_) =>
      case ReadError => DisconnectedInv(s.(err := true), script);
      case WriteError => DisconnectedInv(s.(err := true), script);
    }
  }

  /** The abort happens: two commands are written, the first reply arrives, and its callback asks
      for a clean disconnect. */
  lemma CleanDisconnectAborts(script: Script)
    requires script(0) == [Disconnect]
    ensures Run([Call(Issue(Callback(1, true), 10)), Call(Issue(Callback(2, true), 10)), Written(20),
                 Read([Nil], NoMore)],
                script).phase == Aborted
  {
    var s := TwoWritten(script);
    var before := [Call(Issue(Callback(1, true), 10)), Call(Issue(Callback(2, true), 10)), Written(20)];
    var events := before + [Read([Nil], NoMore)];
    assert events[..3] == before && events[3] == Read([Nil], NoMore);
    assert Doings(s, script, 0) == [] && Doings(s, script, 1) == [Disconnect] by { OneDoing(s, script, [Disconnect]); }
    assert Accepts(false, [Disconnect]) == [] && Output(false, [Disconnect]) == 0;
    assert Accepts(false, []) == [] && Waiting(s, script, 0) == 2 && Waiting(s, script, 1) == 1;
    assert AbortsAt(s, [Nil], NoMore, script, 1);
    assert events == [before[0], before[1], before[2], Read([Nil], NoMore)];
    AbortsIff(s, [Nil], NoMore, script);
  }

  /** Two commands are issued and written. */
  lemma TwoWritten(script: Script) returns (s: Context)
    ensures Run([Call(Issue(Callback(1, true), 10)), Call(Issue(Callback(2, true), 10)), Written(20)], script) == s
    ensures s == Fresh.(replies := [Callback(1, true), Callback(2, true)],
                        accepted := [Callback(1, true), Callback(2, true)])
    ensures Inv(s)
  {
    var a, b := Callback(1, true), Callback(2, true);
    var one := [Call(Issue(a, 10))];
    var two := one + [Call(Issue(b, 10))];
    var three := two + [Written(20)];
    assert one[..0] == [] && two[..1] == one && three[..2] == two;
    assert Fresh.replies + [a] == [a] && Fresh.accepted + [a] == [a] && [a] + [b] == [a, b];
    assert Run(one, script) == Fresh.(replies := [a], accepted := [a], obuf := 10);
    assert Run(two, script) == Fresh.(replies := [a, b], accepted := [a, b], obuf := 20);
    s := Run(three, script);
    RunInv(three, script);
  }

  // ---------------------------------------------------------------- the context in place

  class AsyncContext {
    const script: Script
    var replies: seq<Callback>
    var disconnecting: bool    // REDIS_DISCONNECTING
    var freeing: bool          // REDIS_FREEING
    var inCallback: bool       // REDIS_IN_CALLBACK
    var err: bool
    var obuf: nat              // sdslen(c->obuf)
    var phase: Phase
    var retired: seq<Retired>
    ghost var frees: nat
    ghost var accepted: seq<Callback>
    ghost var received: seq<Reply>

    ghost function State(): Context
      reads this
    {
      Context(replies, disconnecting, freeing, inCallback, err, obuf, phase, frees, retired, accepted, received)
    }

    constructor (script: Script)
      ensures State() == Fresh && this.script == script
    {
      this.script := script;
      replies, disconnecting, freeing, inCallback, err, obuf := [], false, false, false, false, 0;
      phase, frees, retired, accepted, received := Live, 0, [], [], [];
    }

    /** `__redisPushCallback`. */
    method PushCallback(cb: Callback)
      modifies this`replies
      ensures replies == old(replies) + [cb]
    {
      replies := replies + [cb];
    }

    /** `__redisShiftCallback`. */
    method ShiftCallback() returns (cb: Option<Callback>)
      modifies this`replies
      ensures old(replies) == [] ==> cb == None && replies == []
      ensures old(replies) != [] ==> cb == Some(old(replies)[0]) && replies == old(replies)[1..]
    {
      if replies == [] {
        return None;
      }
      cb := Some(replies[0]);
      replies := replies[1..];
    }

    /** `__redisAsyncCommand`, for commands other than SUBSCRIBE, UNSUBSCRIBE and MONITOR. */
    method Command(cb: Callback, len: nat) returns (ok: bool)
      modifies this
      ensures ok == !old(Closing(State())) && State() == Issued(old(State()), cb, len)
    {
      if disconnecting || freeing {
        return false;
      }
      PushCallback(cb);
      accepted := accepted + [cb];
      obuf := obuf + len;
      return true;
    }

    /** The user's code in a callback. */
    method Perform(actions: seq<Action>)
      requires inCallback
      modifies this
      ensures State() == ActsInside(old(State()), actions)
      decreases 0, 4
    {
      ghost var all := ActsInside(State(), actions);
      var i := 0;
      while i < |actions|
        invariant 0 <= i <= |actions| && inCallback
        invariant ActsInside(State(), actions[i..]) == all
      {
        assert actions[i..][1..] == actions[i + 1..];
        match actions[i] {
          case Issue(cb, len) => var ok := Command(cb, len);
          case Free => AsyncFree();
          case Disconnect => AsyncDisconnect();
        }
        i := i + 1;
      }
    }

    /** A callback shifted off the queue gets its reply; with `__redisRunCallback`. */
    method RunCallback(cb: Callback, reply: Option<Reply>, ghost was: Context)
      requires !inCallback && was.replies != [] && cb == was.replies[0]
      requires State() == was.(replies := was.replies[1..])
      modifies this
      ensures State() == RunFirst(was, reply, script)
      decreases 1, 0
    {
      received := received + if reply.Some? then [reply.value] else [];
      var n := |retired|;
      retired := retired + [Retired(cb, reply)];
      assert State() == Shifted(was, reply);
      if cb.hasFn {
        inCallback := true;
        Perform(script(n));
        inCallback := false;
      }
    }

    /** `__redisAsyncFree`. */
    method FreeContext()
      requires !inCallback && (disconnecting || freeing)
      modifies this
      ensures State() == Torn(old(State()), script)
      decreases 1, 1
    {
      ghost var all := Drained(State(), script);
      while replies != []
        invariant !inCallback && Closing(State()) && Drained(State(), script) == all
        decreases |replies|
      {
        ghost var was := State();
        RunRefused(was, None, script);
        RunStaysOut(was, None, script);
        var cb := ShiftCallback();
        RunCallback(cb.value, None, was);
      }
      phase := Freed;
      frees := frees + 1;
    }

    /** `redisAsyncFree`. */
    method AsyncFree()
      modifies this
      ensures var s := old(State()).(freeing := true); State() == if s.inCallback then s else Torn(s, script)
      decreases if inCallback then 0 else 1, 2
    {
      freeing := true;
      if !inCallback {
        FreeContext();
      }
    }

    /** `__redisAsyncDisconnect`. */
    method DisconnectContext()
      requires !inCallback && (disconnecting || freeing || err)
      modifies this
      ensures State() == Disconnected(old(State()), script)
      decreases 1, 2
    {
      if !err {
        if replies != [] {
          phase := Aborted;
          return;
        }
      } else {
        disconnecting := true;
      }
      FreeContext();
    }

    /** `redisAsyncDisconnect`. */
    method AsyncDisconnect()
      modifies this
      ensures var s := old(State()).(disconnecting := true);
              State() == if s.inCallback || s.replies != [] then s else Disconnected(s, script)
      decreases if inCallback then 0 else 1, 3
    {
      disconnecting := true;
      if !inCallback && replies == [] {
        DisconnectContext();
      }
    }

    /** The end of `redisProcessCallbacks`, when the reader has no reply left. */
    method Finish(end: End)
      requires !inCallback
      modifies this
      ensures State() == Processed(old(State()), [], end, script)
    {
      if end == Fault {
        err := true;
        DisconnectContext();
      } else if disconnecting && obuf == 0 {
        DisconnectContext();
      }
    }

    /** `redisProcessCallbacks`. */
    method ProcessCallbacks(input: seq<Reply>, end: End)
      requires !inCallback
      modifies this
      ensures State() == Processed(old(State()), input, end, script)
    {
      ghost var all := Processed(State(), input, end, script);
      var i := 0;
      assert input[0..] == input;
      while i < |input|
        invariant 0 <= i <= |input| && !inCallback
        invariant Processed(State(), input[i..], end, script) == all
      {
        assert input[i..][0] == input[i] && input[i..][1..] == input[i + 1..];
        var done := Dispatch(input[i], input[i..], end);
        if done {
          return;
        }
        i := i + 1;
      }
      assert input[i..] == [];
      Finish(end);
    }

    /** A reply that no callback waits for. */
    method Unsolicited(reply: Reply)
      requires !inCallback && replies == []
      modifies this
      ensures var s := old(State());
              State() == if reply.Error? then Disconnected(s.(err := true), script) else s.(phase := Aborted)
    {
      if reply.Error? {
        err := true;
        DisconnectContext();
        return;
      }
      phase := Aborted;
    }

    /** One reply: the turn of the loop of `redisProcessCallbacks`. */
    method Dispatch(reply: Reply, ghost input: seq<Reply>, ghost end: End) returns (done: bool)
      requires !inCallback && input != [] && input[0] == reply
      modifies this
      ensures done ==> State() == Processed(old(State()), input, end, script)
      ensures !done ==> !inCallback
      ensures !done ==> Processed(State(), input[1..], end, script) == Processed(old(State()), input, end, script)
    {
      ghost var was := State();
      var cb := ShiftCallback();
      if cb.None? {
        Unsolicited(reply);
        return true;
      }
      RunStaysOut(was, Some(reply), script);
      RunCallback(cb.value, Some(reply), was);
      if cb.value.hasFn && freeing {
        FreeContext();
        return true;
      }
      return false;
    }

    /** Any event: a call from outside callbacks, `redisAsyncHandleRead` or `redisAsyncHandleWrite`. */
    method Handle(e: Event)
      requires !inCallback && phase == Live
      modifies this
      ensures State() == Step(old(State()), e, script)
    {
      match e {
        case Call(Issue(cb, len)) => var ok := Command(cb, len);
        case Call(Free) => AsyncFree();
        case Call(Disconnect) => AsyncDisconnect();
        case Read(input, end) => ProcessCallbacks(input, end);
        case Written(n) => obuf := if n < obuf then obuf - n else 0;
        case ReadError =>
          err := true;
          DisconnectContext();
        case WriteError =>
          err := true;
          DisconnectContext();
      }
    }
  }

  /** A context's whole life. */
  method Lifetime(events: seq<Event>, script: Script) returns (ac: AsyncContext)
    ensures fresh(ac) && ac.State() == Run(events, script)
  {
    ac := new AsyncContext(script);
    var i := 0;
    while i < |events|
      invariant 0 <= i <= |events| && fresh(ac) && ac.script == script && ac.State() == Run(events[..i], script)
    {
      assert events[..i + 1][..i] == events[..i];
      RunInv(events[..i], script);
      if ac.phase == Live {
        ac.Handle(events[i]);
      }
      i := i + 1;
    }
    assert events[..i] == events;
  }

  /** A callback returns with its flag cleared. */
  lemma RunStaysOut(s: Context, reply: Option<Reply>, script: Script)
    requires s.replies != [] && !s.inCallback
    ensures !RunFirst(s, reply, script).inCallback
  {
  }
}
