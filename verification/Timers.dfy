/** The time events of `ae.cc`: an unsorted list of timers, the pass over it that restarts from its
    head after every handler, and the time to sleep until the nearest timer. */
module Timers {
  import opened Bytes

  const NOMORE: int := -1   // AE_NOMORE

  datatype Time = Time(sec: int, ms: int)

  datatype Timer = Timer(id: int, when: Time)

  predicate Normal(t: Time) {
    0 <= t.ms < 1000
  }

  function Millis(t: Time): int {
    1000 * t.sec + t.ms
  }

  // ---------------------------------------------------------------- times

  /** C's division by 1000, which truncates. */
  function Quotient(n: int): int {
    if n >= 0 then n / 1000 else -((-n) / 1000)
  }

  function Remainder(n: int): int {
    n - 1000 * Quotient(n)
  }

  /** `aeAddMillisecondsToNow`. */
  function Add(now: Time, milliseconds: int): Time {
    var sec, ms := now.sec + Quotient(milliseconds), now.ms + Remainder(milliseconds);
    if ms >= 1000 then Time(sec + 1, ms - 1000) else Time(sec, ms)
  }

  /** The sum is right for every delay, and normal if and only if no negative remainder drags the
      milliseconds below zero. */
  lemma AddExact(now: Time, milliseconds: int)
    requires Normal(now)
    ensures Millis(Add(now, milliseconds)) == Millis(now) + milliseconds
    ensures Normal(Add(now, milliseconds)) <==> now.ms + Remainder(milliseconds) >= 0
    ensures milliseconds >= 0 ==> Normal(Add(now, milliseconds))
  {
    if milliseconds < 0 {
      assert -1000 < Remainder(milliseconds) <= 0;
    }
  }

  /** The test by which a timer fires. */
  predicate Due(when: Time, now: Time) {
    now.sec > when.sec || (now.sec == when.sec && now.ms >= when.ms)
  }

  lemma DueExact(when: Time, now: Time)
    requires Normal(when) && Normal(now)
    ensures Due(when, now) <==> Millis(when) <= Millis(now)
  {
  }

  // ---------------------------------------------------------------- the list

  /** The list of timers, newest first, and the next identifier. */
  datatype Loop = Loop(timers: seq<Timer>, nextId: int)

  /** Identifiers go down along the list, from below `bound`. */
  ghost predicate Ordered(timers: seq<Timer>, bound: int) {
    timers == [] || (timers[0].id < bound && Ordered(timers[1..], timers[0].id))
  }

  predicate Has(timers: seq<Timer>, id: int) {
    timers != [] && (timers[0].id == id || Has(timers[1..], id))
  }

  function Without(timers: seq<Timer>, id: int): seq<Timer> {
    if timers == [] then []
    else if timers[0].id == id then timers[1..]
    else [timers[0]] + Without(timers[1..], id)
  }

  /** The node of timer id, wherever in the list it is by now, has a new time. */
  function Rearmed(timers: seq<Timer>, id: int, when: Time): seq<Timer> {
    if timers == [] then []
    else if timers[0].id == id then [Timer(id, when)] + timers[1..]
    else [timers[0]] + Rearmed(timers[1..], id, when)
  }

  /** All timers put at second zero, as after a clock that went back. */
  function Skewed(timers: seq<Timer>): seq<Timer> {
    seq(|timers|, i requires 0 <= i < |timers| => timers[i].(when := timers[i].when.(sec := 0)))
  }

  /** The first timer of the list that the pass would fire. */
  function FirstDue(timers: seq<Timer>, maxId: int, now: Time): Option<int> {
    if timers == [] then None
    else if timers[0].id <= maxId && Due(timers[0].when, now) then Some(timers[0].id)
    else FirstDue(timers[1..], maxId, now)
  }

  /** All timers of the list that the pass would fire. */
  function DueIds(timers: seq<Timer>, maxId: int, now: Time): set<int> {
    if timers == [] then {}
    else
      (if timers[0].id <= maxId && Due(timers[0].when, now) then {timers[0].id} else {})
      + DueIds(timers[1..], maxId, now)
  }

  // ---------------------------------------------------------------- handlers

  /** What a handler may do to the timers, each creation with the clock's reading at that moment. */
  datatype Action = Create(milliseconds: int, now: Time) | Delete(id: int)

  /** What a handler does, what it returns, and what the clock reads when it has. */
  datatype Response = Response(actions: seq<Action>, retval: int, now: Time)

  /** How the handlers behave: what the n-th call of a pass, for timer id, does. */
  type Script = (nat, int) -> Response

  function Act(s: Loop, a: Action): Loop {
    match a
    case Create(milliseconds, now) => Loop([Timer(s.nextId, Add(now, milliseconds))] + s.timers, s.nextId + 1)
    case Delete(id) => s.(timers := Without(s.timers, id))
  }

  function Acted(s: Loop, actions: seq<Action>): Loop
    decreases |actions|
  {
    if actions == [] then s else Acted(Act(s, actions[0]), actions[1..])
  }

  /** One call, with what the pass does after it. */
  function Call(s: Loop, id: int, r: Response): Loop {
    var s' := Acted(s, r.actions);
    s'.(timers := if r.retval != NOMORE then Rearmed(s'.timers, id, Add(r.now, r.retval)) else Without(s'.timers, id))
  }

  function Calls(s: Loop, fired: seq<int>, script: Script): Loop {
    if fired == [] then s
    else
      var n := |fired| - 1;
      Call(Calls(s, fired[..n], script), fired[n], script(n, fired[n]))
  }

  function Deletes(actions: seq<Action>): set<int> {
    if actions == [] then {} else (if actions[0].Delete? then {actions[0].id} else {}) + Deletes(actions[1..])
  }

  /** The handler deletes timer x. */
  predicate Removes(r: Response, x: int) {
    x in Deletes(r.actions)
  }

  /** The timers that the handlers called so far have deleted. */
  function Deleted(fired: seq<int>, script: Script): set<int> {
    if fired == [] then {}
    else
      var n := |fired| - 1;
      Deleted(fired[..n], script) + Deletes(script(n, fired[n]).actions)
  }

  /** After the call the pass finds the timer due again. */
  predicate StaysDue(r: Response, now: Time) {
    r.retval != NOMORE && Due(Add(r.now, r.retval), now)
  }

  /** For normal times that is: the clock's reading and the delay do not get past the pass's time. */
  lemma StaysDueExact(r: Response, now: Time)
    requires Normal(now) && Normal(r.now) && r.retval >= 0
    ensures StaysDue(r, now) <==> Millis(r.now) + r.retval <= Millis(now)
  {
    AddExact(r.now, r.retval);
    DueExact(Add(r.now, r.retval), now);
  }

  /** A handler does not delete its own timer unless it returns AE_NOMORE: the source would go on
      using the timer. */
  ghost predicate Safe(script: Script) {
    forall n, id :: Removes(script(n, id), id) ==> script(n, id).retval == NOMORE
  }

  /** No call of the pass leaves its timer due. */
  ghost predicate FairCalls(fired: seq<int>, script: Script, now: Time) {
    forall k :: 0 <= k < |fired| ==> !StaysDue(script(k, fired[k]), now)
  }

  /** No call for any of these timers would leave it due. */
  ghost predicate FairFor(ids: set<int>, script: Script, now: Time) {
    forall n, id :: id in ids ==> !StaysDue(script(n, id), now)
  }

  // ---------------------------------------------------------------- what becomes of the due timers

  lemma {:induction false} OrderedWeaker(timers: seq<Timer>, bound: int, bound': int)
    requires Ordered(timers, bound) && bound <= bound'
    ensures Ordered(timers, bound')
  {
  }

  lemma {:induction false} Absent(timers: seq<Timer>, id: int, maxId: int, now: Time)
    requires Ordered(timers, id)
    ensures !Has(timers, id) && id !in DueIds(timers, maxId, now)
    decreases |timers|
  {
    if timers != [] {
      OrderedWeaker(timers[1..], timers[0].id, id);
      Absent(timers[1..], id, maxId, now);
    }
  }

  lemma {:induction false} WithoutDue(timers: seq<Timer>, bound: int, id: int, maxId: int, now: Time)
    requires Ordered(timers, bound)
    ensures Ordered(Without(timers, id), bound)
    ensures DueIds(Without(timers, id), maxId, now) == DueIds(timers, maxId, now) - {id}
    decreases |timers|
  {
    if timers != [] {
      if timers[0].id == id {
        Absent(timers[1..], id, maxId, now);
        OrderedWeaker(timers[1..], id, bound);
      } else {
        WithoutDue(timers[1..], timers[0].id, id, maxId, now);
        assert Without(timers, id)[1..] == Without(timers[1..], id);
      }
    }
  }

  /** A timer that is given a new time is due if and only if that time has come. */
  lemma {:induction false} RearmedDue(timers: seq<Timer>, bound: int, id: int, when: Time, maxId: int, now: Time)
    requires Ordered(timers, bound)
    ensures Ordered(Rearmed(timers, id, when), bound)
    ensures DueIds(Rearmed(timers, id, when), maxId, now) ==
            DueIds(timers, maxId, now) - {id} + if Has(timers, id) && id <= maxId && Due(when, now) then {id} else {}
    decreases |timers|
  {
    if timers != [] {
      var r := Rearmed(timers, id, when);
      if timers[0].id == id {
        Absent(timers[1..], id, maxId, now);
        assert r[1..] == timers[1..];
      } else {
        RearmedDue(timers[1..], timers[0].id, id, when, maxId, now);
        assert r[1..] == Rearmed(timers[1..], id, when);
      }
    }
  }

  lemma {:induction false} DueIsThere(timers: seq<Timer>, id: int, maxId: int, now: Time)
    requires id in DueIds(timers, maxId, now)
    ensures Has(timers, id) && id <= maxId
    decreases |timers|
  {
    if !(timers[0].id == id && id <= maxId) {
      DueIsThere(timers[1..], id, maxId, now);
    }
  }

  lemma {:induction false} WithoutHas(timers: seq<Timer>, bound: int, id: int, x: int)
    requires Ordered(timers, bound)
    ensures Has(Without(timers, id), x) <==> Has(timers, x) && x != id
    decreases |timers|
  {
    if timers != [] {
      if timers[0].id == id {
        Absent(timers[1..], id, 0, Time(0, 0));
      } else {
        WithoutHas(timers[1..], timers[0].id, id, x);
        assert Without(timers, id)[1..] == Without(timers[1..], id);
      }
    }
  }

  lemma {:induction false} ActedDue(s: Loop, actions: seq<Action>, maxId: int, now: Time)
    requires Ordered(s.timers, s.nextId) && maxId < s.nextId
    ensures var s' := Acted(s, actions);
            && Ordered(s'.timers, s'.nextId) && s.nextId <= s'.nextId
            && DueIds(s'.timers, maxId, now) == DueIds(s.timers, maxId, now) - Deletes(actions)
    decreases |actions|
  {
    if actions != [] {
      var s' := Act(s, actions[0]);
      match actions[0] {
        case Create(_, _) => assert s'.timers[1..] == s.timers;
        case Delete(id) => WithoutDue(s.timers, s.nextId, id, maxId, now);
      }
      ActedDue(s', actions[1..], maxId, now);
    }
  }

  lemma {:induction false} ActedHas(s: Loop, actions: seq<Action>, x: int)
    requires Ordered(s.timers, s.nextId) && x < s.nextId
    ensures Has(Acted(s, actions).timers, x) <==> Has(s.timers, x) && x !in Deletes(actions)
    decreases |actions|
  {
    if actions != [] {
      var s' := Act(s, actions[0]);
      match actions[0] {
        case Create(_, _) => assert s'.timers[1..] == s.timers;
        case Delete(id) =>
          WithoutHas(s.timers, s.nextId, id, x);
          WithoutDue(s.timers, s.nextId, id, 0, Time(0, 0));
      }
      ActedHas(s', actions[1..], x);
    }
  }

  /** Exactly what a call does to the due timers: those it deletes are gone, and so is its own
      unless it stays due; none is added. */
  lemma CallDue(s: Loop, id: int, r: Response, maxId: int, now: Time)
    requires Ordered(s.timers, s.nextId) && maxId < s.nextId && id in DueIds(s.timers, maxId, now)
    ensures var s' := Call(s, id, r);
            && Ordered(s'.timers, s'.nextId) && s.nextId <= s'.nextId
            && DueIds(s'.timers, maxId, now) ==
               DueIds(s.timers, maxId, now) - Deletes(r.actions) - if StaysDue(r, now) then {} else {id}
  {
    DueIsThere(s.timers, id, maxId, now);
    ActedDue(s, r.actions, maxId, now);
    ActedHas(s, r.actions, id);
    var s' := Acted(s, r.actions);
    if r.retval != NOMORE {
      RearmedDue(s'.timers, s'.nextId, id, Add(r.now, r.retval), maxId, now);
    } else {
      WithoutDue(s'.timers, s'.nextId, id, maxId, now);
    }
  }

  // ---------------------------------------------------------------- at what time the timers are due

  /** The time of timer id. */
  function TimeOf(timers: seq<Timer>, id: int): Option<Time> {
    if timers == [] then None
    else if timers[0].id == id then Some(timers[0].when)
    else TimeOf(timers[1..], id)
  }

  /** The time is the delay after the start, and normal unless the delay is negative. */
  predicate At(when: Time, start: Time, delay: int) {
    Millis(when) == Millis(start) + delay && (delay >= 0 ==> Normal(when))
  }

  lemma {:induction false} NoTime(timers: seq<Timer>, bound: int, id: int)
    requires Ordered(timers, bound) && bound <= id
    ensures TimeOf(timers, id) == None
    decreases |timers|
  {
    if timers != [] {
      NoTime(timers[1..], timers[0].id, id);
    }
  }

  /** The pass would fire exactly the timers, among those there at its start, whose time has come. */
  lemma {:induction false} DueIdsExact(timers: seq<Timer>, bound: int, id: int, maxId: int, now: Time)
    requires Ordered(timers, bound)
    ensures id in DueIds(timers, maxId, now) <==>
            id <= maxId && TimeOf(timers, id).Some? && Due(TimeOf(timers, id).value, now)
    decreases |timers|
  {
    if timers != [] {
      if timers[0].id == id {
        Absent(timers[1..], id, maxId, now);
      } else {
        DueIdsExact(timers[1..], timers[0].id, id, maxId, now);
      }
    }
  }

  lemma {:induction false} WithoutTime(timers: seq<Timer>, bound: int, id: int, x: int)
    requires Ordered(timers, bound)
    ensures TimeOf(Without(timers, id), x) == if x == id then None else TimeOf(timers, x)
    decreases |timers|
  {
    if timers != [] {
      if timers[0].id == id {
        NoTime(timers[1..], timers[0].id, id);
      } else {
        WithoutTime(timers[1..], timers[0].id, id, x);
        ConsParts(timers[0], Without(timers[1..], id));
      }
    }
  }

  lemma {:induction false} RearmedTime(timers: seq<Timer>, id: int, when: Time, x: int)
    ensures TimeOf(Rearmed(timers, id, when), x) ==
            if x == id && TimeOf(timers, id).Some? then Some(when) else TimeOf(timers, x)
    decreases |timers|
  {
    if timers != [] {
      if timers[0].id == id {
        ConsParts(Timer(id, when), timers[1..]);
      } else {
        RearmedTime(timers[1..], id, when, x);
        ConsParts(timers[0], Rearmed(timers[1..], id, when));
      }
    }
  }

  /** What an action does to the times: a timer created is due its delay after the clock's reading,
      a timer deleted is gone, and the others keep their times. */
  lemma ActTimes(s: Loop, a: Action, x: int)
    requires Ordered(s.timers, s.nextId)
    ensures var s' := Act(s, a);
            && Ordered(s'.timers, s'.nextId) && s'.nextId == s.nextId + (if a.Create? then 1 else 0)
            && (a.Create? && x == s.nextId ==> TimeOf(s.timers, x) == None && TimeOf(s'.timers, x).Some?)
            && (a.Create? && x == s.nextId && Normal(a.now) ==>
                  At(TimeOf(s'.timers, x).value, a.now, a.milliseconds))
            && (a.Delete? && x == a.id ==> TimeOf(s'.timers, x) == None)
            && (x != (if a.Create? then s.nextId else a.id) ==> TimeOf(s'.timers, x) == TimeOf(s.timers, x))
  {
    match a {
      case Create(milliseconds, now) =>
        ConsParts(Timer(s.nextId, Add(now, milliseconds)), s.timers);
        NoTime(s.timers, s.nextId, s.nextId);
        if Normal(now) { AddExact(now, milliseconds); }
      case Delete(id) =>
        WithoutTime(s.timers, s.nextId, id, x);
        WithoutDue(s.timers, s.nextId, id, 0, Time(0, 0));
    }
  }

  lemma {:induction false} ActedTimes(s: Loop, actions: seq<Action>, x: int)
    requires Ordered(s.timers, s.nextId) && x < s.nextId
    ensures var s' := Acted(s, actions);
            && Ordered(s'.timers, s'.nextId) && s.nextId <= s'.nextId
            && TimeOf(s'.timers, x) == if x in Deletes(actions) then None else TimeOf(s.timers, x)
    decreases |actions|
  {
    if actions != [] {
      ActTimes(s, actions[0], x);
      ActedTimes(Act(s, actions[0]), actions[1..], x);
    }
  }

  /** What a call does to the times of the timers there were: a timer whose handler returns a delay
      is due that long after the clock's reading, one whose handler does not is gone, as are those
      that the handler deletes; the others keep their times. */
  lemma CallTimes(s: Loop, id: int, r: Response, x: int)
    requires Ordered(s.timers, s.nextId) && x < s.nextId
    ensures var t := TimeOf(Call(s, id, r).timers, x);
            && (t.Some? <==> TimeOf(s.timers, x).Some? && !Removes(r, x) && (x == id ==> r.retval != NOMORE))
            && (t.Some? && x != id ==> t == TimeOf(s.timers, x))
            && (t.Some? && x == id && Normal(r.now) ==> At(t.value, r.now, r.retval))
  {
    var s' := Acted(s, r.actions);
    ActedTimes(s, r.actions, x);
    if r.retval != NOMORE {
      RearmedTime(s'.timers, id, Add(r.now, r.retval), x);
      if Normal(r.now) { AddExact(r.now, r.retval); }
    } else {
      WithoutTime(s'.timers, s'.nextId, id, x);
    }
  }

  /** A timer that was created, or rearmed, with a delay from a normal time on is fired by a later
      pass if and only if the delay is over by then. */
  lemma DueAfterDelay(timers: seq<Timer>, bound: int, id: int, start: Time, delay: nat, maxId: int, now: Time)
    requires Ordered(timers, bound) && id <= maxId && Normal(now)
    requires TimeOf(timers, id).Some? && At(TimeOf(timers, id).value, start, delay)
    ensures id in DueIds(timers, maxId, now) <==> Millis(start) + delay <= Millis(now)
  {
    DueIdsExact(timers, bound, id, maxId, now);
    DueExact(TimeOf(timers, id).value, now);
  }

  lemma {:induction false} FirstDueIsDue(timers: seq<Timer>, maxId: int, now: Time)
    ensures FirstDue(timers, maxId, now).None? <==> DueIds(timers, maxId, now) == {}
    ensures FirstDue(timers, maxId, now).Some? ==> FirstDue(timers, maxId, now).value in DueIds(timers, maxId, now)
    decreases |timers|
  {
    if timers != [] {
      FirstDueIsDue(timers[1..], maxId, now);
      assert timers[0].id <= maxId && Due(timers[0].when, now) ==> timers[0].id in DueIds(timers, maxId, now);
    }
  }

  function Elements(fired: seq<int>): set<int> {
    set id | id in fired
  }

  lemma ElementsLast(fired: seq<int>)
    requires fired != []
    ensures Elements(fired) == Elements(fired[..|fired| - 1]) + {fired[|fired| - 1]}
  {
    assert fired == fired[..|fired| - 1] + [fired[|fired| - 1]];
  }

  lemma Subtract(d: set<int>, e: set<int>, x: set<int>, e': set<int>, x': set<int>)
    ensures d - e - x - e' - x' == d - (e + e') - (x + x')
  {
  }

  /** Call k is for timer id: of those not created since the start, the first one due. */
  ghost predicate CallsFirst(s: Loop, before: seq<int>, id: int, script: Script, maxId: int, now: Time) {
    FirstDue(Calls(s, before, script).timers, maxId, now) == Some(id)
  }

  ghost predicate InTurn(s: Loop, fired: seq<int>, script: Script, maxId: int, now: Time) {
    forall k {:trigger CallsFirst(s, fired[..k], fired[k], script, maxId, now)} ::
      0 <= k < |fired| ==> CallsFirst(s, fired[..k], fired[k], script, maxId, now)
  }

  /** The pass as it should be: call the first due timer that was there at the start, until none
      is due. */
  ghost predicate IsPass(s: Loop, fired: seq<int>, script: Script, maxId: int, now: Time) {
    && InTurn(s, fired, script, maxId, now)
    && FirstDue(Calls(s, fired, script).timers, maxId, now).None?
  }

  lemma OneMore(s: Loop, fired: seq<int>, id: int, script: Script, maxId: int, now: Time)
    requires InTurn(s, fired, script, maxId, now) && CallsFirst(s, fired, id, script, maxId, now)
    ensures InTurn(s, fired + [id], script, maxId, now)
    ensures Calls(s, fired + [id], script) == Call(Calls(s, fired, script), id, script(|fired|, id))
  {
    var fired' := fired + [id];
    assert fired'[..|fired|] == fired;
    forall k | 0 <= k < |fired'| ensures CallsFirst(s, fired'[..k], fired'[k], script, maxId, now) {
      if k < |fired| {
        assert fired'[..k] == fired[..k] && CallsFirst(s, fired[..k], fired[k], script, maxId, now);
      }
    }
  }

  /** The timers due before call k. */
  ghost function DueAt(s: Loop, fired: seq<int>, k: nat, script: Script, maxId: int, now: Time): set<int>
    requires k <= |fired|
  {
    DueIds(Calls(s, fired[..k], script).timers, maxId, now)
  }

  /** The list is in order before call k. */
  ghost predicate SoundAt(s: Loop, fired: seq<int>, k: nat, script: Script, maxId: int)
    requires k <= |fired|
  {
    var s' := Calls(s, fired[..k], script); Ordered(s'.timers, s'.nextId) && maxId < s'.nextId
  }

  /** What call k does. */
  ghost predicate Served(s: Loop, fired: seq<int>, k: nat, script: Script, maxId: int, now: Time)
    requires k < |fired|
  {
    var due, r := DueAt(s, fired, k, script, maxId, now), script(k, fired[k]);
    && fired[k] in due
    && DueAt(s, fired, k + 1, script, maxId, now) ==
       due - Deletes(r.actions) - if StaysDue(r, now) then {} else {fired[k]}
  }

  lemma CallServed(s: Loop, fired: seq<int>, k: nat, script: Script, maxId: int, now: Time)
    requires k < |fired| && InTurn(s, fired, script, maxId, now) && SoundAt(s, fired, k, script, maxId)
    ensures SoundAt(s, fired, k + 1, script, maxId) && Served(s, fired, k, script, maxId, now)
  {
    assert CallsFirst(s, fired[..k], fired[k], script, maxId, now);
    FirstDueIsDue(Calls(s, fired[..k], script).timers, maxId, now);
    CallDue(Calls(s, fired[..k], script), fired[k], script(k, fired[k]), maxId, now);
    assert fired[..k + 1][..k] == fired[..k];
  }

  lemma {:induction false} SoundThroughout(s: Loop, fired: seq<int>, k: nat, script: Script, maxId: int, now: Time)
    requires Ordered(s.timers, s.nextId) && maxId < s.nextId && InTurn(s, fired, script, maxId, now) && k <= |fired|
    ensures SoundAt(s, fired, k, script, maxId)
  {
    if k == 0 {
      assert fired[..0] == [];
    } else {
      SoundThroughout(s, fired, k - 1, script, maxId, now);
      CallServed(s, fired, k - 1, script, maxId, now);
    }
  }

  /** Every call of a pass serves a timer that is due. */
  lemma AllServed(s: Loop, fired: seq<int>, script: Script, maxId: int, now: Time)
    requires Ordered(s.timers, s.nextId) && maxId < s.nextId && InTurn(s, fired, script, maxId, now)
    ensures forall k :: 0 <= k < |fired| ==> Served(s, fired, k, script, maxId, now)
    ensures DueAt(s, fired, 0, script, maxId, now) == DueIds(s.timers, maxId, now)
    ensures DueAt(s, fired, |fired|, script, maxId, now) == DueIds(Calls(s, fired, script).timers, maxId, now)
  {
    forall k | 0 <= k < |fired| ensures Served(s, fired, k, script, maxId, now) {
      SoundThroughout(s, fired, k, script, maxId, now);
      CallServed(s, fired, k, script, maxId, now);
    }
    assert fired[..0] == [] && fired[..|fired|] == fired;
  }

  lemma DeletedOneMore(fired: seq<int>, k: nat, script: Script)
    requires k < |fired|
    ensures Deleted(fired[..k + 1], script) == Deleted(fired[..k], script) + Deletes(script(k, fired[k]).actions)
  {
    assert fired[..k + 1][..k] == fired[..k];
  }

  /** What is due before call k if no call left its timer due: what was due at the start, but for
      the timers called or deleted. */
  lemma {:induction false} DueWhenFair(s: Loop, fired: seq<int>, k: nat, script: Script, maxId: int, now: Time)
    requires k <= |fired| && FairCalls(fired, script, now)
    requires forall j :: 0 <= j < |fired| ==> Served(s, fired, j, script, maxId, now)
    ensures DueAt(s, fired, k, script, maxId, now) ==
            DueAt(s, fired, 0, script, maxId, now) - Elements(fired[..k]) - Deleted(fired[..k], script)
  {
    if k > 0 {
      DueWhenFair(s, fired, k - 1, script, maxId, now);
      assert Served(s, fired, k - 1, script, maxId, now);
      DeletedOneMore(fired, k - 1, script);
      ElementsLast(fired[..k]);
      assert fired[..k][..k - 1] == fired[..k - 1];
      Subtract(DueAt(s, fired, 0, script, maxId, now), Elements(fired[..k - 1]), Deleted(fired[..k - 1], script),
               {fired[k - 1]}, Deletes(script(k - 1, fired[k - 1]).actions));
    }
  }

  /** Every timer due at the captured time fires at most once, and exactly once unless a handler
      deletes it first; no other timer fires, new ones included. All that is asked of the handlers
      is that none of the calls made leaves its timer due. */
  lemma ExactlyOnce(s: Loop, fired: seq<int>, script: Script, now: Time)
    requires Ordered(s.timers, s.nextId) && IsPass(s, fired, script, s.nextId - 1, now) && FairCalls(fired, script, now)
    ensures forall i, j :: 0 <= i < j < |fired| ==> fired[i] != fired[j]
    ensures forall k :: 0 <= k < |fired| ==>
              fired[k] in DueIds(s.timers, s.nextId - 1, now) && fired[k] !in Deleted(fired[..k], script)
    ensures forall id :: id in DueIds(s.timers, s.nextId - 1, now) ==> id in fired || id in Deleted(fired, script)
  {
    var maxId := s.nextId - 1;
    AllServed(s, fired, script, maxId, now);
    forall k | 0 <= k < |fired|
      ensures fired[k] in DueIds(s.timers, maxId, now)
      ensures fired[k] !in Deleted(fired[..k], script) && fired[k] !in fired[..k]
    {
      DueWhenFair(s, fired, k, script, maxId, now);
      assert Served(s, fired, k, script, maxId, now);
    }
    forall i, j | 0 <= i < j < |fired| ensures fired[i] != fired[j] {
      assert fired[i] == fired[..j][i];
    }
    DueWhenFair(s, fired, |fired|, script, maxId, now);
    assert fired[..|fired|] == fired;
    FirstDueIsDue(Calls(s, fired, script).timers, maxId, now);
  }

  /** Nothing becomes due. */
  lemma {:induction false} DueShrinks(s: Loop, fired: seq<int>, i: nat, j: nat, script: Script, maxId: int, now: Time)
    requires i <= j <= |fired| && forall k :: 0 <= k < |fired| ==> Served(s, fired, k, script, maxId, now)
    ensures DueAt(s, fired, j, script, maxId, now) <= DueAt(s, fired, i, script, maxId, now)
    ensures DueAt(s, fired, j, script, maxId, now) !! Deleted(fired[..j], script)
    decreases j
  {
    if j == 0 {
      assert fired[..0] == [];
    } else {
      DueShrinks(s, fired, if i < j then i else j - 1, j - 1, script, maxId, now);
      DeletedOneMore(fired, j - 1, script);
      assert Served(s, fired, j - 1, script, maxId, now);
    }
  }

  /** A timer that is not deleted, and every call of which leaves it due, is due throughout. */
  lemma {:induction false} StillDue(s: Loop, fired: seq<int>, x: int, i: nat, j: nat, script: Script, maxId: int,
                                    now: Time)
    requires i <= j <= |fired| && forall k :: 0 <= k < |fired| ==> Served(s, fired, k, script, maxId, now)
    requires x in DueAt(s, fired, i, script, maxId, now)
    requires forall k :: i <= k < j ==> fired[k] == x ==> StaysDue(script(k, x), now)
    requires forall k :: i <= k < j ==> !Removes(script(k, fired[k]), x)
    ensures x in DueAt(s, fired, j, script, maxId, now)
    decreases j - i
  {
    if i < j {
      StillDue(s, fired, x, i, j - 1, script, maxId, now);
      assert Served(s, fired, j - 1, script, maxId, now);
    }
  }

  lemma {:induction false} DeletedSome(fired: seq<int>, script: Script, k: nat)
    requires k < |fired|
    ensures Deletes(script(k, fired[k]).actions) <= Deleted(fired, script)
    decreases |fired|
  {
    var n := |fired| - 1;
    if k < n {
      DeletedSome(fired[..n], script, k);
    }
  }

  /** In every pass that ends, whatever the handlers do: only timers due at the start fire, and not
      once they are deleted; a timer fires again, or is deleted, after a call that leaves it due, and
      does not fire again after one that does not. */
  lemma PassServes(s: Loop, fired: seq<int>, script: Script, now: Time, k: nat)
    requires Ordered(s.timers, s.nextId) && IsPass(s, fired, script, s.nextId - 1, now) && k < |fired|
    ensures fired[k] in DueIds(s.timers, s.nextId - 1, now) && fired[k] !in Deleted(fired[..k], script)
    ensures StaysDue(script(k, fired[k]), now) ==> fired[k] in fired[k + 1..] || fired[k] in Deleted(fired, script)
    ensures !StaysDue(script(k, fired[k]), now) ==> fired[k] !in fired[k + 1..]
  {
    var maxId, x, end := s.nextId - 1, fired[k], |fired|;
    AllServed(s, fired, script, maxId, now);
    assert Served(s, fired, k, script, maxId, now);
    DueShrinks(s, fired, 0, k, script, maxId, now);
    FirstDueIsDue(Calls(s, fired, script).timers, maxId, now);
    if StaysDue(script(k, x), now) {
      AgainOrDeleted(s, fired, k, script, maxId, now);
    } else {
      forall j | k < j < end ensures fired[j] != x {
        DueShrinks(s, fired, k + 1, j, script, maxId, now);
        assert Served(s, fired, j, script, maxId, now);
      }
    }
  }

  lemma AgainOrDeleted(s: Loop, fired: seq<int>, k: nat, script: Script, maxId: int, now: Time)
    requires k < |fired| && forall j :: 0 <= j < |fired| ==> Served(s, fired, j, script, maxId, now)
    requires DueAt(s, fired, |fired|, script, maxId, now) == {} && StaysDue(script(k, fired[k]), now)
    ensures fired[k] in fired[k + 1..] || fired[k] in Deleted(fired, script)
  {
    var x := fired[k];
    if !(x in fired[k + 1..] || x in Deleted(fired, script)) {
      forall j | 0 <= j < |fired| ensures !Removes(script(j, fired[j]), x) {
        DeletedSome(fired, script, j);
      }
      assert forall j :: k < j < |fired| ==> fired[j] == fired[k + 1..][j - k - 1];
      assert Served(s, fired, k, script, maxId, now);
      StillDue(s, fired, x, k + 1, |fired|, script, maxId, now);
    }
  }

  // ---------------------------------------------------------------- when the pass ends

  /** The pass comes to an end. */
  ghost predicate Ends(s: Loop, script: Script, maxId: int, now: Time) {
    exists fired :: IsPass(s, fired, script, maxId, now)
  }

  /** A turn of the pass is a prefix of it. */
  lemma {:induction false} OnlyOnePass(s: Loop, fired: seq<int>, whole: seq<int>, script: Script, maxId: int, now: Time)
    requires InTurn(s, fired, script, maxId, now) && IsPass(s, whole, script, maxId, now)
    ensures fired <= whole
    decreases |fired|
  {
    if fired != [] {
      var n := |fired| - 1;
      InTurnPrefix(s, fired, n, script, maxId, now);
      OnlyOnePass(s, fired[..n], whole, script, maxId, now);
      assert CallsFirst(s, fired[..n], fired[n], script, maxId, now);
      NextOfPass(s, fired[..n], fired[n], whole, script, maxId, now);
      PrefixGrows(fired, whole);
    }
  }

  lemma PrefixGrows(fired: seq<int>, whole: seq<int>)
    requires fired != [] && fired[..|fired| - 1] <= whole && |fired| <= |whole|
    requires whole[|fired| - 1] == fired[|fired| - 1]
    ensures fired <= whole
  {
  }

  lemma NextOfPass(s: Loop, before: seq<int>, id: int, whole: seq<int>, script: Script, maxId: int, now: Time)
    requires before <= whole && CallsFirst(s, before, id, script, maxId, now) && IsPass(s, whole, script, maxId, now)
    ensures |before| < |whole| && whole[|before|] == id
  {
    var n := |before|;
    assert whole[..|whole|] == whole && before == whole[..n];
    if n < |whole| {
      assert CallsFirst(s, whole[..n], whole[n], script, maxId, now);
    }
  }

  lemma InTurnPrefix(s: Loop, fired: seq<int>, n: nat, script: Script, maxId: int, now: Time)
    requires n <= |fired| && InTurn(s, fired, script, maxId, now)
    ensures InTurn(s, fired[..n], script, maxId, now)
  {
    forall k | 0 <= k < n ensures CallsFirst(s, fired[..n][..k], fired[..n][k], script, maxId, now) {
      assert fired[..n][..k] == fired[..k] && CallsFirst(s, fired[..k], fired[k], script, maxId, now);
    }
  }

  /** It ends if no call for a timer due at the start would leave that timer due. */
  lemma {:induction false} FairEnds(s: Loop, before: seq<int>, script: Script, maxId: int, now: Time)
    requires Ordered(s.timers, s.nextId) && maxId < s.nextId && InTurn(s, before, script, maxId, now)
    requires FairFor(DueIds(s.timers, maxId, now), script, now)
    ensures Ends(s, script, maxId, now)
    decreases DueIds(Calls(s, before, script).timers, maxId, now)
  {
    var s', end := Calls(s, before, script), |before|;
    AllServed(s, before, script, maxId, now);
    DueShrinks(s, before, 0, end, script, maxId, now);
    SoundThroughout(s, before, end, script, maxId, now);
    assert before[..end] == before;
    FirstDueIsDue(s'.timers, maxId, now);
    match FirstDue(s'.timers, maxId, now) {
      case None => assert IsPass(s, before, script, maxId, now);
      case Some(id) =>
        OneMore(s, before, id, script, maxId, now);
        CallDue(s', id, script(|before|, id), maxId, now);
        FairEnds(s, before + [id], script, maxId, now);
    }
  }

  /** No handler deletes timer x. */
  ghost predicate NeverRemoved(script: Script, x: int) {
    forall n, id :: !Removes(script(n, id), x)
  }

  lemma NotRemoved(script: Script, x: int, n: nat, id: int)
    requires NeverRemoved(script, x)
    ensures !Removes(script(n, id), x)
  {
  }

  /** It does not end if some timer due at the start is never deleted and every call for it leaves
      it due: that timer is due after any number of calls. */
  lemma RunsOn(s: Loop, x: int, script: Script, maxId: int, now: Time)
    requires Ordered(s.timers, s.nextId) && maxId < s.nextId && x in DueIds(s.timers, maxId, now)
    requires forall n :: StaysDue(script(n, x), now)
    requires NeverRemoved(script, x)
    ensures !Ends(s, script, maxId, now)
    ensures forall fired :: InTurn(s, fired, script, maxId, now) ==>
              x in DueIds(Calls(s, fired, script).timers, maxId, now)
  {
    forall fired | InTurn(s, fired, script, maxId, now)
      ensures x in DueIds(Calls(s, fired, script).timers, maxId, now) && !IsPass(s, fired, script, maxId, now)
    {
      AllServed(s, fired, script, maxId, now);
      forall k | 0 <= k < |fired| ensures !Removes(script(k, fired[k]), x) {
        NotRemoved(script, x, k, fired[k]);
      }
      StillDue(s, fired, x, 0, |fired|, script, maxId, now);
      FirstDueIsDue(Calls(s, fired, script).timers, maxId, now);
    }
  }

  /** Handlers that behave the same way at every call, and delete no timer but their own. */
  ghost predicate Steady(script: Script, now: Time) {
    && (forall n, id :: StaysDue(script(n, id), now) == StaysDue(script(0, id), now))
    && (forall n, id, x :: Removes(script(n, id), x) ==> x == id && script(n, id).retval == NOMORE)
  }

  /** With such handlers the pass ends if and only if no handler of a due timer leaves it due. */
  lemma EndsIff(s: Loop, script: Script, now: Time)
    requires Ordered(s.timers, s.nextId) && Steady(script, now)
    ensures Ends(s, script, s.nextId - 1, now) <==>
            forall id :: id in DueIds(s.timers, s.nextId - 1, now) ==> !StaysDue(script(0, id), now)
  {
    var maxId := s.nextId - 1;
    if x :| x in DueIds(s.timers, maxId, now) && StaysDue(script(0, x), now) {
      RunsOn(s, x, script, maxId, now);
    } else {
      FairEnds(s, [], script, maxId, now);
    }
  }

  // ---------------------------------------------------------------- the event loop in place

  /** A timer's time is not before that of another. */
  predicate NotLater(a: Time, b: Time) {
    a.sec < b.sec || (a.sec == b.sec && a.ms <= b.ms)
  }

  lemma {:induction false} SkewedOrdered(timers: seq<Timer>, timers': seq<Timer>, bound: int)
    requires Ordered(timers, bound) && |timers'| == |timers|
    requires forall i :: 0 <= i < |timers| ==> timers'[i].id == timers[i].id
    ensures Ordered(timers', bound)
    decreases |timers|
  {
    if timers != [] {
      SkewedOrdered(timers[1..], timers'[1..], timers[0].id);
    }
  }

  lemma {:induction false} HasNot(timers: seq<Timer>, i: nat, id: int)
    requires i < |timers| && !Has(timers[..i], id) && timers[i].id != id
    ensures !Has(timers[..i + 1], id)
    decreases i
  {
    if i > 0 {
      assert timers[..i][1..] == timers[1..][..i - 1] && timers[..i + 1][1..] == timers[1..][..i];
      HasNot(timers[1..], i - 1, id);
    }
  }

  lemma {:induction false} WithoutAt(timers: seq<Timer>, i: nat, id: int)
    requires i < |timers| && !Has(timers[..i], id) && timers[i].id == id
    ensures Has(timers, id) && Without(timers, id) == timers[..i] + timers[i + 1..]
    decreases i
  {
    if i > 0 {
      assert timers[..i][0] == timers[0] && timers[..i][1..] == timers[1..][..i - 1];
      WithoutAt(timers[1..], i - 1, id);
      OneOut(timers, i);
    }
  }

  lemma OneOut<T>(s: seq<T>, i: nat)
    requires 0 < i < |s|
    ensures [s[0]] + (s[1..][..i - 1] + s[1..][i..]) == s[..i] + s[i + 1..]
  {
  }

  lemma {:induction false} WithoutNone(timers: seq<Timer>, id: int)
    requires !Has(timers, id)
    ensures Without(timers, id) == timers
    decreases |timers|
  {
    if timers != [] {
      WithoutNone(timers[1..], id);
    }
  }

  function Ids(timers: seq<Timer>): set<int> {
    set t | t in timers :: t.id
  }

  /** Once the clock has gone back, every timer is due, unless the clock stands in its first second. */
  lemma {:induction false} SkewFiresAll(timers: seq<Timer>, bound: int, now: Time)
    requires Ordered(timers, bound) && now.sec >= 1
    ensures DueIds(Skewed(timers), bound - 1, now) == Ids(timers)
    decreases |timers|
  {
    if timers != [] {
      OrderedWeaker(timers[1..], timers[0].id, bound);
      SkewFiresAll(timers[1..], bound, now);
      assert Skewed(timers)[1..] == Skewed(timers[1..]);
      assert timers == [timers[0]] + timers[1..];
      assert Ids(timers) == {timers[0].id} + Ids(timers[1..]);
    }
  }

  /** A turn of the pass: one step nearer to its end. */
  lemma Turn(s: Loop, fired: seq<int>, id: int, whole: seq<int>, script: Script, maxId: int, now: Time)
    requires InTurn(s, fired, script, maxId, now) == true && IsPass(s, whole, script, maxId, now)
    requires var s' := Calls(s, fired, script);
             Ordered(s'.timers, s'.nextId) && maxId < s'.nextId && FirstDue(s'.timers, maxId, now) == Some(id)
    ensures InTurn(s, fired + [id], script, maxId, now) && |fired| + 1 <= |whole|
    ensures var s', s'' := Calls(s, fired, script), Calls(s, fired + [id], script);
            s'' == Call(s', id, script(|fired|, id)) && Ordered(s''.timers, s''.nextId) && s'.nextId <= s''.nextId
  {
    OneMore(s, fired, id, script, maxId, now);
    OnlyOnePass(s, fired + [id], whole, script, maxId, now);
    FirstDueIsDue(Calls(s, fired, script).timers, maxId, now);
    CallDue(Calls(s, fired, script), id, script(|fired|, id), maxId, now);
  }

  /** The timers once the clock has been checked. */
  function Checked(s: Loop, lastTime: int, time: int): Loop {
    if time < lastTime then s.(timers := Skewed(s.timers)) else s
  }

  class EventLoop {
    var timers: seq<Timer>    // timeEventHead and what follows it
    var nextId: int           // timeEventNextId
    var lastTime: int

    ghost predicate Valid()
      reads this
    {
      Ordered(timers, nextId)
    }

    ghost function State(): Loop
      reads this
    {
      Loop(timers, nextId)
    }

    constructor (time: int)
      ensures Valid() && State() == Loop([], 0) && lastTime == time
    {
      timers, nextId, lastTime := [], 0, time;
    }

    /** `aeCreateTimeEvent`: the new timer, at the head of the list, is due exactly its delay after the
        clock's reading. */
    method CreateTimeEvent(milliseconds: int, now: Time) returns (id: int)
      requires Valid()
      modifies this`timers, this`nextId
      ensures Valid() && id == old(nextId) && State() == Act(old(State()), Create(milliseconds, now))
      ensures nextId == id + 1 && timers != [] && timers[0].id == id && timers[1..] == old(timers)
      ensures Normal(now) ==> Millis(timers[0].when) == Millis(now) + milliseconds
      ensures Normal(now) && milliseconds >= 0 ==>
                forall maxId, t :: id <= maxId && Normal(t) ==>
                  (id in DueIds(timers, maxId, t) <==> Millis(now) + milliseconds <= Millis(t))
    {
      ActTimes(State(), Create(milliseconds, now), nextId);
      id := nextId;
      nextId := nextId + 1;
      assert ([Timer(id, Add(now, milliseconds))] + timers)[1..] == timers;
      timers := [Timer(id, Add(now, milliseconds))] + timers;
      if Normal(now) {
        AddExact(now, milliseconds);
        forall maxId, t | id <= maxId && Normal(t) && milliseconds >= 0
          ensures id in DueIds(timers, maxId, t) <==> Millis(now) + milliseconds <= Millis(t)
        {
          DueAfterDelay(timers, nextId, id, now, milliseconds, maxId, t);
        }
      }
    }

    /** `aeDeleteTimeEvent`. */
    method DeleteTimeEvent(id: int) returns (ok: bool)
      requires Valid()
      modifies this`timers
      ensures Valid() && ok == Has(old(timers), id) && State() == Act(old(State()), Delete(id))
    {
      WithoutDue(timers, nextId, id, 0, Time(0, 0));
      var i := 0;
      while i < |timers|
        invariant 0 <= i <= |timers| && timers == old(timers)
        invariant !Has(timers[..i], id)
      {
        if timers[i].id == id {
          WithoutAt(timers, i, id);
          timers := timers[..i] + timers[i + 1..];
          return true;
        }
        HasNot(timers, i, id);
        i := i + 1;
      }
      assert timers[..i] == timers;
      WithoutNone(timers, id);
      return false;
    }

    /** A handler at work. */
    method Handle(actions: seq<Action>)
      requires Valid()
      modifies this`timers, this`nextId
      ensures Valid() && State() == Acted(old(State()), actions)
    {
      var i := 0;
      while i < |actions|
        invariant 0 <= i <= |actions| && Valid()
        invariant Acted(old(State()), actions) == Acted(State(), actions[i..])
      {
        assert actions[i..][1..] == actions[i + 1..];
        match actions[i] {
          case Create(milliseconds, now) => var id := CreateTimeEvent(milliseconds, now);
          case Delete(id) => var ok := DeleteTimeEvent(id);
        }
        i := i + 1;
      }
    }

    /** A timer that is due: its handler, then its new time or its removal. */
    method Fire(id: int, r: Response)
      requires Valid()
      modifies this`timers, this`nextId
      ensures State() == Call(old(State()), id, r)
    {
      Handle(r.actions);
      if r.retval != NOMORE {
        timers := Rearmed(timers, id, Add(r.now, r.retval));
      } else {
        var ok := DeleteTimeEvent(id);
      }
    }

    /** The part of `processTimeEvents` that forces all timers after the clock has gone back. */
    method DetectSkew(time: int)
      requires Valid()
      modifies this`timers, this`lastTime
      ensures Valid() && lastTime == time
      ensures timers == if time < old(lastTime) then Skewed(old(timers)) else old(timers)
      ensures time < old(lastTime) ==>
                && |timers| == |old(timers)|
                && forall i :: 0 <= i < |timers| ==>
                     timers[i] == Timer(old(timers)[i].id, Time(0, old(timers)[i].when.ms))
    {
      if time < lastTime {
        var i := 0;
        while i < |timers|
          invariant 0 <= i <= |timers| == |old(timers)| && Valid()
          invariant timers[..i] == Skewed(old(timers))[..i] && timers[i..] == old(timers)[i..]
        {
          ghost var timers0 := timers;
          timers := timers[i := timers[i].(when := timers[i].when.(sec := 0))];
          SkewedOrdered(timers0, timers, nextId);
          i := i + 1;
        }
      }
      lastTime := time;
    }

    /** The loop of `processTimeEvents`, for any handlers with which it ends: restarting from the
        head after every handler comes to calling the first due timer until none is due. */
    method Pass(now: Time, script: Script) returns (processed: nat, fired: seq<int>)
      requires Valid() && Safe(script) && Ends(State(), script, nextId - 1, now)
      modifies this`timers, this`nextId
      ensures Valid() && processed == |fired|
      ensures IsPass(old(State()), fired, script, old(nextId) - 1, now) && State() == Calls(old(State()), fired, script)
    {
      ghost var whole :| IsPass(State(), whole, script, nextId - 1, now);
      var te, maxId := 0, nextId - 1;
      processed, fired := 0, [];
      while te < |timers|
        invariant 0 <= te <= |timers| && Valid() && maxId < nextId && processed == |fired|
        invariant State() == Calls(old(State()), fired, script)
        invariant FirstDue(timers, maxId, now) == FirstDue(timers[te..], maxId, now)
        invariant InTurn(old(State()), fired, script, maxId, now) == true && |fired| <= |whole|
        decreases |whole| - |fired|, |timers| - te
      {
        assert timers[te..][1..] == timers[te + 1..];
        if timers[te].id > maxId {
          te := te + 1;
        } else if Due(timers[te].when, now) {
          var id := timers[te].id;
          Turn(old(State()), fired, id, whole, script, maxId, now);
          Fire(id, script(|fired|, id));
          assert timers[0..] == timers;
          fired := fired + [id];
          processed := processed + 1;
          te := 0;
        } else {
          te := te + 1;
        }
      }
    }

    /** `processTimeEvents`. */
    method ProcessTimeEvents(time: int, now: Time, script: Script) returns (processed: nat, fired: seq<int>)
      requires Valid() && Safe(script) && Ends(Checked(State(), lastTime, time), script, nextId - 1, now)
      modifies this
      ensures Valid() && lastTime == time && processed == |fired|
      ensures var start := Checked(old(State()), old(lastTime), time);
              IsPass(start, fired, script, old(nextId) - 1, now) && State() == Calls(start, fired, script)
    {
      DetectSkew(time);
      processed, fired := Pass(now, script);
    }

    /** `aeSearchNearestTimer`: the first of the timers with the least time, or none. */
    method SearchNearestTimer() returns (nearest: Option<Timer>)
      ensures nearest.None? <==> timers == []
      ensures nearest.Some? ==>
                nearest.value in timers && forall t :: t in timers ==> NotLater(nearest.value.when, t.when)
    {
      nearest := None;
      var te := 0;
      while te < |timers|
        invariant 0 <= te <= |timers| && (nearest.None? <==> te == 0)
        invariant nearest.Some? ==>
                    nearest.value in timers[..te] && forall t :: t in timers[..te] ==> NotLater(nearest.value.when,
                                                                                                t.when)
      {
        if nearest.None? || timers[te].when.sec < nearest.value.when.sec
           || (timers[te].when.sec == nearest.value.when.sec && timers[te].when.ms < nearest.value.when.ms) {
          nearest := Some(timers[te]);
        }
        assert timers[..te + 1] == timers[..te] + [timers[te]];
        te := te + 1;
      }
      assert timers[..te] == timers;
    }

    /** The timeout that `aeProcessEvents` gives to `aeApiPoll`, in the milliseconds that
        `epoll_wait` gets, -1 for no limit: with timers at normal times it is exactly the least time
        left of any timer when no timer is overdue, and less than a second when one is. */
    method PollTimeout(timeEvents: bool, dontWait: bool, now: Time) returns (timeout: int)
      requires Normal(now)
      ensures dontWait ==> timeout == 0
      ensures !dontWait && (!timeEvents || timers == []) ==> timeout == -1
      ensures !dontWait && timeEvents && timers != [] && (forall t :: t in timers ==> Normal(t.when)) ==>
                && (exists t :: t in timers && timeout == Sleep(t.when, now))
                && ((forall t :: t in timers ==> Millis(now) <= Millis(t.when)) ==>
                      && (forall t :: t in timers ==> timeout <= Millis(t.when) - Millis(now))
                      && exists t :: t in timers && timeout == Millis(t.when) - Millis(now))
                && ((exists t :: t in timers && Millis(t.when) < Millis(now)) ==> 0 <= timeout < 1000)
    {
      var shortest: Option<Timer> := None;
      if timeEvents && !dontWait {
        shortest := SearchNearestTimer();
      }
      if shortest.Some? {
        timeout := Sleep(shortest.value.when, now);
        if forall t :: t in timers ==> Normal(t.when) {
          forall t | t in timers ensures Millis(shortest.value.when) <= Millis(t.when) {
            NotLaterMillis(shortest.value.when, t.when);
          }
          SleepExact(shortest.value.when, now);
        }
      } else if dontWait {
        timeout := 0;
      } else {
        timeout := -1;
      }
    }
  }

  /** The computation of the timeout for the nearest timer. */
  function Sleep(when: Time, now: Time): int {
    var borrow := when.ms < now.ms;
    var sec := when.sec - now.sec - if borrow then 1 else 0;
    var usec := (when.ms - now.ms + if borrow then 1000 else 0) * 1000;
    (if sec < 0 then 0 else sec) * 1000 + (if usec < 0 then 0 else usec) / 1000
  }

  /** The time left, or for an overdue timer what is left of the current second: such a timer is
      served at once if and only if it is late by a whole number of seconds. */
  lemma SleepExact(when: Time, now: Time)
    requires Normal(when) && Normal(now)
    ensures Millis(now) <= Millis(when) ==> Sleep(when, now) == Millis(when) - Millis(now)
    ensures Millis(when) < Millis(now) ==> Sleep(when, now) == (Millis(when) - Millis(now)) % 1000 < 1000
    ensures Millis(when) < Millis(now) ==> (Sleep(when, now) == 0 <==> when.ms == now.ms)
  {
    var borrow := when.ms < now.ms;
    var k, m := when.sec - now.sec - (if borrow then 1 else 0), when.ms - now.ms + (if borrow then 1000 else 0);
    assert Millis(when) - Millis(now) == 1000 * k + m && 0 <= m < 1000;
    Thousands(k, m);
  }

  lemma Thousands(k: int, m: int)
    requires 0 <= m < 1000
    ensures (1000 * k + m) % 1000 == m && (m * 1000) / 1000 == m
  {
  }

  lemma NotLaterMillis(a: Time, b: Time)
    requires Normal(a) && Normal(b)
    ensures NotLater(a, b) <==> Millis(a) <= Millis(b)
  {
  }
}
