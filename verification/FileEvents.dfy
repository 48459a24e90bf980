/** The file events of `ae.cc` over its epoll and select backends. */
module FileEvents {
  import opened Bytes

  /** AE_READABLE and AE_WRITABLE, each in the mask or not. */
  datatype Mask = Mask(readable: bool, writable: bool)

  const NONE: Mask := Mask(false, false)

  function Or(a: Mask, b: Mask): Mask {
    Mask(a.readable || b.readable, a.writable || b.writable)
  }

  /** The mask a & ~b. */
  function Minus(a: Mask, b: Mask): Mask {
    Mask(a.readable && !b.readable, a.writable && !b.writable)
  }

  const OK: int := 0
  const ERR: int := -1

  /** EPOLLIN, EPOLLOUT, EPOLLERR and EPOLLHUP. */
  datatype Events = Events(pollin: bool, pollout: bool, pollerr: bool, pollhup: bool)

  /** What the backend has been told: the kernel's interest list, or the two descriptor sets. */
  datatype Api = Epoll(interest: map<nat, Events>) | Select(rfds: set<nat>, wfds: set<nat>)

  datatype CtlOp = Add | Mod | Del

  /** `epoll_ctl`: it fails on adding what is there and on changing or removing what is not. */
  function EpollCtl(interest: map<nat, Events>, op: CtlOp, fd: nat, events: Events): Option<map<nat, Events>> {
    match op
    case Add => if fd in interest then None else Some(interest[fd := events])
    case Mod => if fd in interest then Some(interest[fd := events]) else None
    case Del => if fd in interest then Some(interest - {fd}) else None
  }

  /** The epoll events that stand for a mask. */
  function EventsOf(mask: Mask): Events {
    Events(mask.readable, mask.writable, false, false)
  }

  /** The backend has been told of descriptor fd exactly what its mask says. */
  ghost predicate MirrorsAt(api: Api, fd: nat, mask: Mask) {
    match api
    case Epoll(interest) => (fd in interest <==> mask != NONE) && (fd in interest ==> interest[fd] == EventsOf(mask))
    case Select(rfds, wfds) => (fd in rfds <==> mask.readable) && (fd in wfds <==> mask.writable)
  }

  function MaskAt(masks: seq<Mask>, fd: nat): Mask {
    if fd < |masks| then masks[fd] else NONE
  }

  ghost predicate Mirrors(api: Api, masks: seq<Mask>) {
    forall fd {:trigger MirrorsAt(api, fd, MaskAt(masks, fd))} :: MirrorsAt(api, fd, MaskAt(masks, fd))
  }

  /** The largest descriptor with a mask that is not empty, or -1. */
  ghost predicate Highest(masks: seq<Mask>, maxfd: int) {
    && -1 <= maxfd < |masks|
    && (maxfd >= 0 ==> masks[maxfd] != NONE)
    && (forall fd :: maxfd < fd < |masks| ==> masks[fd] == NONE)
  }

  /** `aeApiAddEvent`; `was` is the mask so far. */
  function ApiAddEvent(api: Api, was: Mask, fd: nat, mask: Mask): Option<Api> {
    match api
    case Epoll(interest) =>
      (match EpollCtl(interest, if was == NONE then Add else Mod, fd, EventsOf(Or(mask, was)))
       case None => None
       case Some(interest') => Some(Epoll(interest')))
    case Select(rfds, wfds) =>
      Some(Select(if mask.readable then rfds + {fd} else rfds, if mask.writable then wfds + {fd} else wfds))
  }

  /** The operation that `aeApiDelEvent` asks of epoll. */
  function DelOp(was: Mask, delmask: Mask): CtlOp {
    if Minus(was, delmask) != NONE then Mod else Del
  }

  /** `aeApiDelEvent`, which ignores what `epoll_ctl` says. */
  function ApiDelEvent(api: Api, was: Mask, fd: nat, delmask: Mask): Api {
    match api
    case Epoll(interest) =>
      (match EpollCtl(interest, DelOp(was, delmask), fd, EventsOf(Minus(was, delmask)))
       case None => api
       case Some(interest') => Epoll(interest'))
    case Select(rfds, wfds) =>
      Select(if delmask.readable then rfds - {fd} else rfds, if delmask.writable then wfds - {fd} else wfds)
  }

  /** With a backend that mirrors the masks, ADD or MOD is the right choice and succeeds; the
      backend mirrors the masks afterwards if and only if the merged mask is not empty or the backend
      is select. (For the highest descriptor see `RaisedHighest`.) */
  lemma AddMirrors(api: Api, masks: seq<Mask>, fd: nat, mask: Mask)
    requires Mirrors(api, masks) && fd < |masks|
    ensures ApiAddEvent(api, masks[fd], fd, mask).Some?
    ensures var api', masks' := ApiAddEvent(api, masks[fd], fd, mask).value, masks[fd := Or(masks[fd], mask)];
            Mirrors(api', masks') <==> api.Select? || masks'[fd] != NONE
  {
    assert MirrorsAt(api, fd, MaskAt(masks, fd));
    var api', masks' := ApiAddEvent(api, masks[fd], fd, mask).value, masks[fd := Or(masks[fd], mask)];
    assert MirrorsAt(api', fd, MaskAt(masks', fd)) <==> api.Select? || masks'[fd] != NONE;
    forall f: nat | f != fd ensures MirrorsAt(api', f, MaskAt(masks', f)) {
      assert MirrorsAt(api, f, MaskAt(masks, f));
    }
  }

  /** MOD or DEL is the right choice for a descriptor that has events. */
  lemma DelMirrors(api: Api, masks: seq<Mask>, fd: nat, mask: Mask)
    requires Mirrors(api, masks) && fd < |masks| && masks[fd] != NONE
    ensures var mask' := Minus(masks[fd], mask);
            && Mirrors(ApiDelEvent(api, mask', fd, mask), masks[fd := mask'])
            && (api.Epoll? ==> EpollCtl(api.interest, DelOp(mask', mask), fd, EventsOf(Minus(mask', mask))).Some?)
  {
    var mask' := Minus(masks[fd], mask);
    assert Minus(mask', mask) == mask';
    assert MirrorsAt(api, fd, MaskAt(masks, fd));
    var masks', api' := masks[fd := mask'], ApiDelEvent(api, mask', fd, mask);
    forall f: nat ensures MirrorsAt(api', f, MaskAt(masks', f)) {
      assert MirrorsAt(api, f, MaskAt(masks, f));
    }
  }

  /** The kernel watches exactly the registered descriptors, and each of them for reading if and only
      if it is registered as readable, and for writing if and only if as writable. */
  lemma WatchedExact(api: Api, masks: seq<Mask>, fd: nat)
    requires Mirrors(api, masks)
    ensures var m := MaskAt(masks, fd);
            match api
            case Epoll(interest) =>
              && (fd in interest <==> m.readable || m.writable)
              && (fd in interest ==> (interest[fd].pollin <==> m.readable) && (interest[fd].pollout <==> m.writable))
            case Select(rfds, wfds) => (fd in rfds <==> m.readable) && (fd in wfds <==> m.writable)
  {
    assert MirrorsAt(api, fd, MaskAt(masks, fd));
  }

  // ---------------------------------------------------------------- the scan after select

  datatype FiredEvent = FiredEvent(fd: nat, mask: Mask)

  /** What the scan reports for a descriptor: what it waits for and is ready. */
  function Report(masks: seq<Mask>, fd: nat, rfds: set<nat>, wfds: set<nat>): FiredEvent
    requires fd < |masks|
  {
    FiredEvent(fd, Mask(masks[fd].readable && fd in rfds, masks[fd].writable && fd in wfds))
  }

  /** The reports for the registered descriptors below n, in order. */
  function Scan(masks: seq<Mask>, n: nat, rfds: set<nat>, wfds: set<nat>): (r: seq<FiredEvent>)
    requires n <= |masks|
    ensures |r| <= n
  {
    if n == 0 then []
    else if masks[n - 1] == NONE then Scan(masks, n - 1, rfds, wfds)
    else Scan(masks, n - 1, rfds, wfds) + [Report(masks, n - 1, rfds, wfds)]
  }

  /** The reports r cover the registered descriptors below n, once each and no others. */
  ghost predicate Covers(r: seq<FiredEvent>, masks: seq<Mask>, n: nat, rfds: set<nat>, wfds: set<nat>)
    requires n <= |masks|
  {
    && (forall fd :: 0 <= fd < n && masks[fd] != NONE ==> Report(masks, fd, rfds, wfds) in r)
    && (forall e :: e in r ==> e.fd < n && masks[e.fd] != NONE && e == Report(masks, e.fd, rfds, wfds))
    && (forall i, j :: 0 <= i < j < |r| ==> r[i].fd < r[j].fd)
  }

  lemma {:induction false} ScanCovers(masks: seq<Mask>, n: nat, rfds: set<nat>, wfds: set<nat>)
    requires n <= |masks|
    ensures Covers(Scan(masks, n, rfds, wfds), masks, n, rfds, wfds) == true
  {
    if n > 0 {
      ScanCovers(masks, n - 1, rfds, wfds);
      if masks[n - 1] != NONE {
        CoversOneMore(Scan(masks, n - 1, rfds, wfds), masks, n - 1, rfds, wfds);
      }
    }
  }

  lemma CoversOneMore(r: seq<FiredEvent>, masks: seq<Mask>, n: nat, rfds: set<nat>, wfds: set<nat>)
    requires n < |masks| && Covers(r, masks, n, rfds, wfds) && masks[n] != NONE
    ensures Covers(r + [Report(masks, n, rfds, wfds)], masks, n + 1, rfds, wfds)
  {
    var e := Report(masks, n, rfds, wfds);
    forall x ensures x in r + [e] <==> x in r || x == e {
    }
    forall i, j | 0 <= i < j < |r + [e]| ensures (r + [e])[i].fd < (r + [e])[j].fd {
      assert r[i] in r;
    }
  }

  /** The scan up to the highest descriptor reports every registered descriptor once, with exactly
      the events that it waits for and that are ready, and no other descriptor. */
  lemma ScanExact(masks: seq<Mask>, maxfd: int, rfds: set<nat>, wfds: set<nat>)
    requires Highest(masks, maxfd)
    ensures Covers(Scan(masks, maxfd + 1, rfds, wfds), masks, |masks|, rfds, wfds)
  {
    ScanCovers(masks, maxfd + 1, rfds, wfds);
  }

  // ---------------------------------------------------------------- the event loop in place

  /** `aeFileEvent`. */
  datatype FileEvent = FileEvent(mask: Mask, rfileProc: int, wfileProc: int, clientData: int)

  function Masks(events: seq<FileEvent>): seq<Mask> {
    seq(|events|, i requires 0 <= i < |events| => events[i].mask)
  }

  /** The entry of a descriptor after its registration for mask. */
  function Registered(fe: FileEvent, mask: Mask, proc: int, clientData: int): FileEvent {
    FileEvent(Or(fe.mask, mask), if mask.readable then proc else fe.rfileProc,
              if mask.writable then proc else fe.wfileProc, clientData)
  }

  class EventLoop {
    const events: array<FileEvent>
    const fired: array<FiredEvent>
    var maxfd: int
    var api: Api

    ghost predicate Valid()
      reads this, events
    {
      && fired.Length == events.Length
      && Highest(Masks(events[..]), maxfd) == true && Mirrors(api, Masks(events[..])) == true
    }

    constructor (setsize: nat, epoll: bool)
      ensures Valid() && fresh(events) && fresh(fired) && events.Length == setsize && maxfd == -1
      ensures api == if epoll then Epoll(map[]) else Select({}, {})
    {
      events := new FileEvent[setsize](_ => FileEvent(NONE, 0, 0, 0));
      fired := new FiredEvent[setsize](_ => FiredEvent(0, NONE));
      maxfd := -1;
      api := if epoll then Epoll(map[]) else Select({}, {});
      new;
      forall fd: nat ensures MirrorsAt(api, fd, MaskAt(Masks(events[..]), fd)) {
        assert MaskAt(Masks(events[..]), fd) == NONE;
      }
    }

    /** `aeCreateFileEvent`; the kernel may refuse the descriptor for reasons of its own. The state
        stays valid except when an empty mask is registered for an idle descriptor: epoll then has a
        descriptor that the loop does not know of, and a descriptor above the highest one becomes it. */
    method CreateFileEvent(fd: nat, mask: Mask, proc: int, clientData: int, refused: bool) returns (r: int)
      requires Valid()
      modifies this, events
      ensures r == if fd >= events.Length || (old(api).Epoll? && refused) then ERR else OK
      ensures r == ERR ==> Valid() && events[..] == old(events[..]) && api == old(api) && maxfd == old(maxfd)
      ensures r == OK ==> events[..] == old(events[..])[fd := Registered(old(events[fd]), mask, proc, clientData)]
      ensures r == OK ==>
                var was, fe := old(events[fd]), events[fd];
                && (fe.mask.readable <==> was.mask.readable || mask.readable)
                && (fe.mask.writable <==> was.mask.writable || mask.writable)
                && fe.rfileProc == (if mask.readable then proc else was.rfileProc)
                && fe.wfileProc == (if mask.writable then proc else was.wfileProc) && fe.clientData == clientData
      ensures r == OK ==>
                && (Mirrors(api, Masks(events[..])) <==> events[fd].mask != NONE || old(api).Select?)
                && (Highest(Masks(events[..]), maxfd) <==> events[fd].mask != NONE || fd <= old(maxfd))
      ensures r == OK ==> (Valid() <==> events[fd].mask != NONE || (old(api).Select? && fd <= old(maxfd)))
    {
      if fd >= events.Length {
        return ERR;
      }
      if api.Epoll? && refused {
        return ERR;
      }
      AddMirrors(api, Masks(events[..]), fd, mask);
      var fe := events[fd];
      match ApiAddEvent(api, fe.mask, fd, mask) {
        case None => return ERR;
        case Some(api') => api := api';
      }
      RaisedHighest(events[..], maxfd, fd, Registered(fe, mask, proc, clientData));
      fe := fe.(mask := Or(fe.mask, mask));
      if mask.readable { fe := fe.(rfileProc := proc); }
      if mask.writable { fe := fe.(wfileProc := proc); }
      events[fd] := fe.(clientData := clientData);
      assert events[..] == old(events[..])[fd := Registered(old(events[fd]), mask, proc, clientData)];
      if fd > maxfd {
        maxfd := fd;
      }
      r := OK;
    }

    /** The search for the new highest descriptor in `aeDeleteFileEvent`. */
    method Lower()
      requires 0 <= maxfd < events.Length && forall fd :: maxfd <= fd < events.Length ==> events[fd].mask == NONE
      modifies this`maxfd
      ensures Highest(Masks(events[..]), maxfd)
    {
      var j := maxfd - 1;
      while j >= 0
        invariant -1 <= j < events.Length
        invariant forall fd :: j < fd < events.Length ==> events[fd].mask == NONE
      {
        if events[j].mask != NONE {
          break;
        }
        j := j - 1;
      }
      maxfd := j;
    }

    /** `aeDeleteFileEvent`. */
    method DeleteFileEvent(fd: nat, mask: Mask)
      requires Valid()
      modifies this, events
      ensures Valid()
      ensures fd >= events.Length ==> events[..] == old(events[..])
      ensures fd < events.Length ==>
                events[..] == old(events[..])[fd := old(events[fd]).(mask := Minus(old(events[fd]).mask, mask))]
      ensures fd < events.Length ==>
                && (events[fd].mask.readable <==> old(events[fd]).mask.readable && !mask.readable)
                && (events[fd].mask.writable <==> old(events[fd]).mask.writable && !mask.writable)
    {
      if fd >= events.Length {
        return;
      }
      if events[fd].mask == NONE {
        assert events[..] == old(events[..])[fd := old(events[fd])];
        return;
      }
      var fe := events[fd];
      ghost var masks := Masks(events[..]);
      DelMirrors(api, masks, fd, mask);
      events[fd] := fe.(mask := Minus(fe.mask, mask));
      assert events[..] == old(events[..])[fd := fe.(mask := Minus(fe.mask, mask))];
      assert Masks(events[..]) == masks[fd := Minus(fe.mask, mask)];
      if fd == maxfd && events[fd].mask == NONE {
        assert forall k :: maxfd <= k < events.Length ==> events[k].mask == Masks(events[..])[k];
        Lower();
      }
      api := ApiDelEvent(api, events[fd].mask, fd, mask);
    }

    /** `aeApiPoll` over select, given the descriptors that the kernel finds ready: the scan stays
        within the array of fired events. */
    method SelectPoll(rfds: set<nat>, wfds: set<nat>, retval: int) returns (numevents: nat)
      requires Valid()
      modifies fired
      ensures numevents <= fired.Length
      ensures retval <= 0 ==> numevents == 0
      ensures retval > 0 ==> Covers(fired[..numevents], Masks(events[..]), events.Length, rfds, wfds)
    {
      numevents := 0;
      if retval > 0 {
        ghost var masks := Masks(events[..]);
        var j := 0;
        while j <= maxfd
          invariant 0 <= j <= maxfd + 1 && numevents <= j
          invariant fired[..numevents] == Scan(masks, j, rfds, wfds)
        {
          var fe := events[j];
          if fe.mask != NONE {
            var mask := NONE;
            if fe.mask.readable && j in rfds { mask := mask.(readable := true); }
            if fe.mask.writable && j in wfds { mask := mask.(writable := true); }
            fired[numevents] := FiredEvent(j, mask);
            assert FiredEvent(j, mask) == Report(masks, j, rfds, wfds);
            assert fired[..numevents + 1] == fired[..numevents] + [FiredEvent(j, mask)];
            numevents := numevents + 1;
          }
          j := j + 1;
        }
        ScanExact(masks, maxfd, rfds, wfds);
      }
    }

    /** `aeApiPoll` over epoll, given the events that the kernel reports. */
    method EpollPoll(ready: seq<(nat, Events)>) returns (numevents: nat)
      requires Valid() && |ready| <= fired.Length
      modifies fired
      ensures numevents == |ready|
      ensures forall j :: 0 <= j < numevents ==>
                var e := ready[j].1;
                fired[j] == FiredEvent(ready[j].0, Mask(e.pollin, e.pollout || e.pollerr || e.pollhup))
    {
      numevents := |ready|;
      var j := 0;
      while j < numevents
        invariant 0 <= j <= numevents
        invariant forall k :: 0 <= k < j ==>
                    var e := ready[k].1;
                    fired[k] == FiredEvent(ready[k].0, Mask(e.pollin, e.pollout || e.pollerr || e.pollhup))
      {
        var mask, e := NONE, ready[j].1;
        if e.pollin { mask := mask.(readable := true); }
        if e.pollout { mask := mask.(writable := true); }
        if e.pollerr { mask := mask.(writable := true); }
        if e.pollhup { mask := mask.(writable := true); }
        fired[j] := FiredEvent(ready[j].0, mask);
        j := j + 1;
      }
    }
  }

  /** The highest descriptor after a registration is right if and only if the mask is not empty or
      the descriptor is not above the highest one. */
  lemma RaisedHighest(events: seq<FileEvent>, maxfd: int, fd: nat, fe: FileEvent)
    requires Highest(Masks(events), maxfd) && fd < |events| && (events[fd].mask != NONE ==> fe.mask != NONE)
    ensures Masks(events[fd := fe]) == Masks(events)[fd := fe.mask]
    ensures Highest(Masks(events[fd := fe]), if fd > maxfd then fd else maxfd) <==> fe.mask != NONE || fd <= maxfd
  {
    var masks' := Masks(events[fd := fe]);
    assert masks'[fd] == fe.mask;
  }
}
