/** Whole runs of the send queues: any interleaving, over all sockets, of allocations, flushes and
    sends. */
module SendBufRun {
  import opened Bytes
  import opened SendBuf
  import opened Powers

  /** Reserve is `sendbuf_alloc`; Commit writes data where it pointed to and flushes it; Send offers
      the socket what `sendbuf_datalen` says is there, of which it takes up to n bytes, and skips
      what it took. */
  datatype Op =
    | Open(fd: nat)
    | Close(fd: nat)
    | Reserve(fd: nat, need: nat)
    | Commit(fd: nat, data: bytes)
    | Send(fd: nat, n: nat)

  // ---------------------------------------------------------------- what a run amounts to

  /** The sockets open after a run. */
  function OpenAfter(ops: seq<Op>): set<nat> {
    if ops == [] then {}
    else
      var before := OpenAfter(ops[..|ops| - 1]);
      match ops[|ops| - 1]
      case Open(fd) => before + {fd}
      case Close(fd) => before - {fd}
      case _ => before
  }

  /** What is appended to socket fd since it was last opened. */
  function Appended(ops: seq<Op>, fd: nat): bytes {
    if ops == [] then []
    else
      var before := Appended(ops[..|ops| - 1], fd);
      match ops[|ops| - 1]
      case Open(f) => if f == fd then [] else before
      case Commit(f, data) => if f == fd then before + data else before
      case _ => before
  }

  /** What socket fd has taken since it was last opened, out[k] being what step k took. */
  function Taken(ops: seq<Op>, out: seq<bytes>, fd: nat): bytes
    requires |out| == |ops|
  {
    if ops == [] then []
    else
      var before := Taken(ops[..|ops| - 1], out[..|ops| - 1], fd);
      match ops[|ops| - 1]
      case Open(f) => if f == fd then [] else before
      case Send(f, _) => if f == fd then before + out[|ops| - 1] else before
      case _ => before
  }

  /** How much of its last allocation socket fd may still write, or -1 without one; a send ends an
      allocation, as it may free the block. */
  function Reserved(ops: seq<Op>, fd: nat): int {
    if ops == [] || ops[|ops| - 1].fd != fd then if ops == [] then -1 else Reserved(ops[..|ops| - 1], fd)
    else
      match ops[|ops| - 1]
      case Reserve(_, need) => need
      case Commit(_, data) => Reserved(ops[..|ops| - 1], fd) - |data|
      case _ => -1
  }

  /** Nothing has been written since the last allocation of socket fd. */
  predicate Unwritten(ops: seq<Op>, fd: nat) {
    if ops == [] then false
    else
      var before := Unwritten(ops[..|ops| - 1], fd);
      match ops[|ops| - 1]
      case Open(f) => if f == fd then false else before
      case Reserve(f, _) => f == fd || before
      case Commit(f, data) => if f == fd && data != [] then false else before
      case _ => before
  }

  /** A socket is used only between its creation and its release, and no more is written than was
      allocated. */
  predicate Allowed(op: Op, ops: seq<Op>) {
    match op
    case Open(fd) => fd < MAX_SOCKET && fd !in OpenAfter(ops)
    case Close(fd) => fd in OpenAfter(ops)
    case Reserve(fd, need) => fd in OpenAfter(ops) && need + HEADER <= MAX_BLOCK
    case Commit(fd, data) => fd in OpenAfter(ops) && |data| <= Reserved(ops, fd)
    case Send(fd, n) => fd in OpenAfter(ops) && n > 0
  }

  ghost predicate Legal(ops: seq<Op>) {
    ops == [] || (Legal(ops[..|ops| - 1]) && Allowed(ops[|ops| - 1], ops[..|ops| - 1]))
  }

  /** No allocation is left unwritten for a larger one. */
  ghost predicate Orderly(ops: seq<Op>) {
    ops == []
    || (var before, op := ops[..|ops| - 1], ops[|ops| - 1];
        Orderly(before) && (op.Reserve? && Unwritten(before, op.fd) ==> op.need <= Reserved(before, op.fd)))
  }

  /** A socket that has taken nothing had nothing to take. */
  ghost predicate Offered(ops: seq<Op>, out: seq<bytes>)
    requires |out| == |ops|
  {
    ops == []
    || (var n := |ops| - 1;
        && Offered(ops[..n], out[..n])
        && (ops[n].Send? && out[n] == [] ==> Taken(ops[..n], out[..n], ops[n].fd) == Appended(ops[..n], ops[n].fd)))
  }

  // ---------------------------------------------------------------- the state a run leads to

  /** Where socket fd stands after a run. */
  ghost predicate Stands(ops: seq<Op>, out: seq<bytes>, w: World, appended: map<nat, bytes>, consumed: map<nat, bytes>,
                         fd: nat)
    requires |out| == |ops|
  {
    && (Socket(fd) in w.lists <==> fd in OpenAfter(ops))
    && (fd in OpenAfter(ops) ==>
          && fd in appended && appended[fd] == Appended(ops, fd)
          && fd in consumed && consumed[fd] == Taken(ops, out, fd)
          && RoomOf(w, fd) >= Reserved(ops, fd))
    && (Orderly(ops) ==> FullButLast(w, fd) && (Unwritten(ops, fd) || Full(w, fd)))
  }

  /** The state of the buffers after a run. */
  ghost predicate After(ops: seq<Op>, out: seq<bytes>, w: World, appended: map<nat, bytes>, consumed: map<nat, bytes>) {
    && |out| == |ops| && (Orderly(ops) ==> Offered(ops, out))
    && forall fd {:trigger Stands(ops, out, w, appended, consumed, fd)} :: Stands(ops, out, w, appended, consumed, fd)
  }

  /** What one step does to its socket. */
  ghost predicate Stepped(op: Op, o: bytes, w: World, appended: map<nat, bytes>, consumed: map<nat, bytes>,
                          w': World, appended': map<nat, bytes>, consumed': map<nat, bytes>) {
    var fd := op.fd;
    && Elsewhere(w, w', fd) && (Socket(fd) in w'.lists ==> RoomOf(w', fd) >= -1)
    && match op
       case Open(_) =>
         && Socket(fd) in w'.lists && appended' == appended[fd := []] && consumed' == consumed[fd := []]
         && Full(w', fd) && FullButLast(w', fd)
       case Close(_) => Socket(fd) !in w'.lists && appended' == appended && consumed' == consumed
       case Reserve(_, need) =>
         && Socket(fd) in w'.lists && appended' == appended && consumed' == consumed && RoomOf(w', fd) >= need
         && (FullButLast(w, fd) ==> (FullButLast(w', fd) <==> Full(w, fd) || RoomOf(w, fd) >= need))
       case Commit(_, data) =>
         && Socket(fd) in w'.lists && fd in appended && appended' == appended[fd := appended[fd] + data]
         && consumed' == consumed
         && RoomOf(w', fd) == RoomOf(w, fd) - |data|
         && (FullButLast(w, fd) ==> FullButLast(w', fd) && (data != [] ==> Full(w', fd)))
         && (Full(w, fd) ==> Full(w', fd))
       case Send(_, _) =>
         && Socket(fd) in w'.lists && fd in consumed && appended' == appended
         && consumed' == consumed[fd := consumed[fd] + o]
         && (Full(w, fd) ==> Full(w', fd)) && (FullButLast(w, fd) ==> FullButLast(w', fd))
         && (FullButLast(w, fd) && o == [] ==> Pending(w, fd) == [])
  }

  /** The socket of the step. */
  lemma StepHere(ops: seq<Op>, out: seq<bytes>, op: Op, o: bytes, w: World, appended: map<nat, bytes>,
                 consumed: map<nat, bytes>,
                 w': World, appended': map<nat, bytes>, consumed': map<nat, bytes>)
    requires |out| == |ops| && Stands(ops, out, w, appended, consumed, op.fd) && Allowed(op, ops)
    requires Stepped(op, o, w, appended, consumed, w', appended', consumed')
    ensures Stands(ops + [op], out + [o], w', appended', consumed', op.fd)
  {
    assert (ops + [op])[..|ops|] == ops && (out + [o])[..|ops|] == out;
  }

  /** Any other socket. */
  lemma StepElsewhere(ops: seq<Op>, out: seq<bytes>, op: Op, o: bytes, w: World, appended: map<nat, bytes>,
                      consumed: map<nat, bytes>,
                      w': World, appended': map<nat, bytes>, consumed': map<nat, bytes>, fd: nat)
    requires |out| == |ops| && Stands(ops, out, w, appended, consumed, fd) && fd != op.fd
    requires Stepped(op, o, w, appended, consumed, w', appended', consumed')
    ensures Stands(ops + [op], out + [o], w', appended', consumed', fd)
  {
    assert (ops + [op])[..|ops|] == ops && (out + [o])[..|ops|] == out;
    assert Same(w, w', fd);
  }

  /** Each step keeps the books of every socket. */
  lemma StepAfter(ops: seq<Op>, out: seq<bytes>, op: Op, o: bytes, w: World, appended: map<nat, bytes>,
                  consumed: map<nat, bytes>,
                  w': World, appended': map<nat, bytes>, consumed': map<nat, bytes>)
    requires After(ops, out, w, appended, consumed) == true && Allowed(op, ops)
    requires Conserved(w, appended, consumed) == true
    requires Stepped(op, o, w, appended, consumed, w', appended', consumed') == true
    ensures After(ops + [op], out + [o], w', appended', consumed')
  {
    assert Stands(ops, out, w, appended, consumed, op.fd);
    forall fd ensures Stands(ops + [op], out + [o], w', appended', consumed', fd) {
      assert Stands(ops, out, w, appended, consumed, fd);
      if fd == op.fd {
        StepHere(ops, out, op, o, w, appended, consumed, w', appended', consumed');
      } else {
        StepElsewhere(ops, out, op, o, w, appended, consumed, w', appended', consumed', fd);
      }
    }
    assert (ops + [op])[..|ops|] == ops && (out + [o])[..|ops|] == out;
    if op.Send? && Pending(w, op.fd) == [] {
      NothingAfter(consumed[op.fd]);
    }
  }

  // ---------------------------------------------------------------- runs in place

  /** An allocation. */
  method ReserveSome(q: SendBufs, fd: nat, need: nat)
    requires q.Valid() && q.Live(fd) && need + HEADER <= MAX_BLOCK
    modifies q, q.table, q.bbufs
    ensures q.Valid() && Retains(old(q.blocks), q.blocks) == true
    ensures Stepped(Reserve(fd, need), [], old(q.w), old(q.appended), old(q.consumed), q.w, q.appended,
                    q.consumed) == true
  {
    var block := q.Alloc(fd, need);
  }

  /** A write and its flush. */
  method CommitSome(q: SendBufs, fd: nat, data: bytes)
    requires q.Valid() && q.Live(fd) && RoomOf(q.w, fd) >= |data|
    modifies q, q.table, q.bbufs
    ensures q.Valid() && Retains(old(q.blocks), q.blocks) == true
    ensures Stepped(Commit(fd, data), [], old(q.w), old(q.appended), old(q.consumed), q.w, q.appended,
                    q.consumed) == true
  {
    ghost var blocks0 := q.blocks;
    var r := q.Commit(fd, data);
    SizesRetained(blocks0, q.blocks);
  }

  /** The opening of a socket, or its closing. */
  method OpenOrClose(q: SendBufs, op: Op)
    requires q.Valid() && (op.Open? || op.Close?) && op.fd < MAX_SOCKET && (q.Live(op.fd) <==> op.Close?)
    modifies q, q.table, q.bbufs
    ensures q.Valid() && Retains(old(q.blocks), q.blocks) == true
    ensures Stepped(op, [], old(q.w), old(q.appended), old(q.consumed), q.w, q.appended, q.consumed) == true
  {
    ghost var w0, blocks0 := q.w, q.blocks;
    if op.Open? {
      q.Create(op.fd);
      CreatedElsewhere(w0, op.fd);
    } else {
      q.Free(op.fd);
      SizesRetained(blocks0, q.blocks);
    }
  }

  /** One step. */
  method Perform(q: SendBufs, op: Op, ghost ops: seq<Op>, ghost out: seq<bytes>) returns (o: bytes)
    requires q.Valid() && Allowed(op, ops) && |out| == |ops| && Stands(ops, out, q.w, q.appended, q.consumed, op.fd)
    modifies q, q.table, q.bbufs
    ensures q.Valid() && Stepped(op, o, old(q.w), old(q.appended), old(q.consumed), q.w, q.appended, q.consumed) == true
    ensures Retains(old(q.blocks), q.blocks) == true
  {
    o := [];
    if op.Reserve? {
      ReserveSome(q, op.fd, op.need);
    } else if op.Commit? {
      CommitSome(q, op.fd, op.data);
    } else if op.Send? {
      o := SendSome(q, op.fd, op.n);
    } else {
      if op.Close? { TailOk(q.w, q.table[..], q.bbufs[..], op.fd); }
      OpenOrClose(q, op);
    }
  }

  /** The socket is offered what is at the read pointer, and what it takes is skipped. */
  method SendSome(q: SendBufs, fd: nat, n: nat) returns (o: bytes)
    requires q.Valid() && q.Live(fd) && n > 0
    modifies q, q.table, q.bbufs
    ensures q.Valid() && Retains(old(q.blocks), q.blocks) == true
    ensures o == [] <==> HeadLen(old(q.w), fd) == 0
    ensures Stepped(Send(fd, n), o, old(q.w), old(q.appended), old(q.consumed), q.w, q.appended, q.consumed) == true
  {
    ghost var blocks0 := q.blocks;
    var len := q.DataLen(fd);
    o := [];
    if len == 0 {
      SkippedNothing(q.w, fd, q.appended, q.consumed);
      TailOk(q.w, q.table[..], q.bbufs[..], fd);
      return;
    }
    o := q.Peek(fd, Min(n, len));
    var r := q.Skip(fd, Min(n, len));
    SizesRetained(blocks0, q.blocks);
    TailOk(q.w, q.table[..], q.bbufs[..], fd);
  }

  /** Block p is in exactly one list, at exactly one place: in the free list of its size, or in the
      chain of an open socket. */
  ghost predicate OwnedOnce(w: World, ops: seq<Op>, p: Ptr) {
    exists o, k {:trigger w.lists[o][k]} ::
      && o in w.lists && 0 <= k < |w.lists[o]| && w.lists[o][k] == p && 0 <= p < |w.blocks|
      && (forall o', k' {:trigger w.lists[o'][k']} ::
            o' in w.lists && 0 <= k' < |w.lists[o']| && w.lists[o'][k'] == p ==> o' == o && k' == k)
      && match o
         case FreeList(i) => w.blocks[p].bufSize + HEADER == Pow2(i)
         case Socket(fd) => fd in OpenAfter(ops)
  }

  lemma AllOwned(ops: seq<Op>, out: seq<bytes>, w: World, appended: map<nat, bytes>, consumed: map<nat, bytes>, p: Ptr)
    requires After(ops, out, w, appended, consumed) == true && Ok(w) && 0 <= p < |w.blocks|
    ensures OwnedOnce(w, ops, p)
  {
    OneOwner(w, p);
    var o, k :| o in w.lists && 0 <= k < |w.lists[o]| && w.lists[o][k] == p;
    if o.Socket? {
      assert Stands(ops, out, w, appended, consumed, o.fd);
    }
  }

  /** In every run, and at every socket, what has been taken and what is pending make up what was
      appended, in order. No block that was ever made is lost: each is in one free list or one chain.
      In an orderly run a socket is offered nothing only when nothing is pending. */
  method Replay(q: SendBufs, ops: seq<Op>) returns (out: seq<bytes>)
    requires q.Valid() && (forall fd :: !q.Live(fd)) && Legal(ops)
    modifies q, q.table, q.bbufs
    ensures q.Valid() && |out| == |ops| && (Orderly(ops) ==> Offered(ops, out))
    ensures forall fd :: q.Live(fd) <==> fd in OpenAfter(ops)
    ensures forall fd :: fd in OpenAfter(ops) ==> Appended(ops, fd) == Taken(ops, out, fd) + Pending(q.w, fd)
    ensures Retains(old(q.blocks), q.blocks) && forall p :: 0 <= p < |q.blocks| ==> OwnedOnce(q.w, ops, p)
  {
    out := [];
    var k := 0;
    assert forall fd :: q.Live(fd) <==> Socket(fd) in q.w.lists;
    NothingYet(q.w, q.appended, q.consumed);
    assert ops[..0] == [] && ops[..|ops|] == ops;
    while k < |ops|
      invariant k <= |ops| && q.Valid() && After(ops[..k], out, q.w, q.appended, q.consumed) == true
      invariant Retains(old(q.blocks), q.blocks) == true
    {
      ghost var w0, appended0, consumed0, blocks0 := q.w, q.appended, q.consumed, q.blocks;
      LegalAt(ops, k);
      assert Stands(ops[..k], out, q.w, q.appended, q.consumed, ops[k].fd);
      var o := Perform(q, ops[k], ops[..k], out);
      StepAfter(ops[..k], out, ops[k], o, w0, appended0, consumed0, q.w, q.appended, q.consumed);
      RetainsThrough(old(q.blocks), blocks0, q.blocks);
      TakeOneMore(ops, k);
      out := out + [o];
      k := k + 1;
    }
    Balance(ops, out, q.w, q.appended, q.consumed);
  }

  lemma {:induction false} LegalAt(ops: seq<Op>, k: nat)
    requires Legal(ops) && k < |ops|
    ensures Allowed(ops[k], ops[..k])
    decreases |ops|
  {
    var n := |ops| - 1;
    if k < n {
      LegalAt(ops[..n], k);
      assert ops[..n][..k] == ops[..k];
    }
  }

  lemma NothingYet(w: World, appended: map<nat, bytes>, consumed: map<nat, bytes>)
    requires forall fd :: Socket(fd) !in w.lists
    ensures After([], [], w, appended, consumed)
  {
  }

  lemma Balance(ops: seq<Op>, out: seq<bytes>, w: World, appended: map<nat, bytes>, consumed: map<nat, bytes>)
    requires After(ops, out, w, appended, consumed) == true && Conserved(w, appended, consumed) == true && Ok(w)
    ensures |out| == |ops| && (Orderly(ops) ==> Offered(ops, out))
    ensures forall fd :: Socket(fd) in w.lists <==> fd in OpenAfter(ops)
    ensures forall fd :: fd in OpenAfter(ops) ==> Appended(ops, fd) == Taken(ops, out, fd) + Pending(w, fd)
    ensures forall p :: 0 <= p < |w.blocks| ==> OwnedOnce(w, ops, p)
  {
    forall fd
      ensures Socket(fd) in w.lists <==> fd in OpenAfter(ops)
      ensures fd in OpenAfter(ops) ==> Appended(ops, fd) == Taken(ops, out, fd) + Pending(w, fd)
    {
      assert Stands(ops, out, w, appended, consumed, fd);
    }
    forall p | 0 <= p < |w.blocks| ensures OwnedOnce(w, ops, p) {
      AllOwned(ops, out, w, appended, consumed, p);
    }
  }

  /** A run that is not orderly: an allocation is left unwritten for a larger one, and what is then
      written is never offered. */
  method LeaveBehind(q: SendBufs, fd: nat, data: bytes) returns (len: nat)
    requires q.Valid() && fd < MAX_SOCKET && !q.Live(fd) && 0 < |data| <= 10000
    modifies q, q.table, q.bbufs
    ensures q.Valid() && q.Live(fd) && Pending(q.w, fd) == data && len == 0 && Stuck(q.w, fd)
  {
    q.Create(fd);
    var first := q.Alloc(fd, 1);
    NothingPending(q.w, fd);
    var second := q.Alloc(fd, 10000);
    NothingPending(q.w, fd);
    var r := q.Commit(fd, data);
    len := q.DataLen(fd);
  }
}
