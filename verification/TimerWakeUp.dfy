/** The idle wake-up: one worker that sleeps until the first deadline, and any number of threads that change the
    timers meanwhile. Each step is one critical section or one system call of one thread. */
module TimerWakeUp {
  import opened Options
  import opened TimerIndex
  import opened TimerExpiry
  import opened TimerRuns

  /** `Armed(at, wake)`: the worker has computed at time `at` to sleep until `wake` and has not returned from
      `epoll_wait` yet. `Busy` is everything else it does. */
  datatype Worker = Busy | Armed(at: int, wake: int)

  /** What a thread that must wake the worker has still to do: look for an idle thread, then write the byte. */
  datatype Phase = ToCheck | ToWrite

  datatype State<Id(==)> = State(
    sys: System<Id>, tickled: bool, pipe: nat, idle: bool, worker: Worker, wakers: map<nat, Phase>)

  datatype Event<Id(==)> =
    | GoIdle | LeaveIdle | CheckStopping | ComputeWait | Return | DrainPipe | ExpireTimers(now: int)
    | Advance(clock: int)
    | AddTimer(tid: nat, id: Id, timer: Timer)
    | CancelTimer(id: Id)
    | RefreshTimer(id: Id)
    | ResetTimer(tid: nat, id: Id, ms: nat, fromNow: bool)
    | LookForIdle(tid: nat) | WriteByte(tid: nat)

  const MAX_TIMEOUT: nat := 5000

  function Wait<Id(==)>(ix: Index<Id>, now: int): nat
    requires ix.WellFormed()
  {
    if NextTimer(ix, now) < MAX_TIMEOUT then NextTimer(ix, now) else MAX_TIMEOUT
  }

  /** An insertion at the front sets the flag, unless it is set already, and leaves its thread with a wake-up to do. */
  function Inserted<Id(==)>(p: State<Id>, sys: System<Id>, tid: nat, front: bool): State<Id> {
    if front && !p.tickled then p.(sys := sys, tickled := true, wakers := p.wakers[tid := ToCheck])
    else p.(sys := sys)
  }

  function ResetNext<Id(==)>(p: State<Id>, id: Id, ms: nat, fromNow: bool): int
    requires id in p.sys.ix.timers
  {
    ResetDeadline(p.sys.ix.timers[id], ms, fromNow, p.sys.clock)
  }

  /** Whether a call of `reset` gets as far as inserting its timer again. */
  predicate Reinserts<Id(==)>(p: State<Id>, id: Id, ms: nat, fromNow: bool)
    requires p.sys.ix.WellFormed() && id in p.sys.ix.timers
  {
    !ResetIsNoOp(p.sys.ix.timers[id], ms, fromNow) && Movable(p.sys.ix, id)
  }

  ghost predicate CanHappen<Id>(p: State<Id>, e: Event<Id>)
    requires p.sys.ix.Valid()
  {
    match e
    case GoIdle => p.worker == Busy
    case LeaveIdle => p.worker == Busy
    case CheckStopping => true
    case ComputeWait => p.worker == Busy && p.idle
    case Return => p.worker.Armed?
    case DrainPipe => p.worker == Busy
    case ExpireTimers(now) => p.worker == Busy && Enabled(p.sys, ExpireOp(now))
    case Advance(clock) => Enabled(p.sys, TickOp(clock))
    case AddTimer(tid, id, t) => tid !in p.wakers && Enabled(p.sys, AddOp(id, t))
    case CancelTimer(id) => Enabled(p.sys, CancelOp(id))
    case RefreshTimer(id) => Enabled(p.sys, RefreshOp(id))
    case ResetTimer(tid, id, ms, fromNow) => tid !in p.wakers && Enabled(p.sys, ResetOp(id, ms, fromNow))
    case LookForIdle(tid) => tid in p.wakers && p.wakers[tid] == ToCheck
    case WriteByte(tid) => tid in p.wakers && p.wakers[tid] == ToWrite
  }

  function Happen<Id(==)>(p: State<Id>, e: Event<Id>): State<Id>
    requires p.sys.ix.Valid() && CanHappen(p, e)
  {
    match e
    case GoIdle => p.(idle := true)
    case LeaveIdle => p.(idle := false)
    case CheckStopping => p.(tickled := false)
    case ComputeWait =>
      p.(tickled := false, worker := Armed(p.sys.clock, p.sys.clock + Span(Wait(p.sys.ix, p.sys.clock))))
    case Return => p.(worker := Busy)
    case DrainPipe => p.(pipe := 0)
    case ExpireTimers(now) => p.(sys := Apply(p.sys, ExpireOp(now)))
    case Advance(clock) => p.(sys := Apply(p.sys, TickOp(clock)))
    case AddTimer(tid, id, t) => Inserted(p, Apply(p.sys, AddOp(id, t)), tid, AtFront(p.sys.ix, t.next))
    case CancelTimer(id) => p.(sys := Apply(p.sys, CancelOp(id)))
    case RefreshTimer(id) => p.(sys := Apply(p.sys, RefreshOp(id)))
    case ResetTimer(tid, id, ms, fromNow) =>
      Inserted(p, Apply(p.sys, ResetOp(id, ms, fromNow)), tid,
               Reinserts(p, id, ms, fromNow) && AtFront(Unlink(p.sys.ix, id), ResetNext(p, id, ms, fromNow)))
    case LookForIdle(tid) => p.(wakers := if p.idle then p.wakers[tid := ToWrite] else p.wakers - {tid})
    case WriteByte(tid) => p.(pipe := p.pipe + 1, wakers := p.wakers - {tid})
  }

  // ----- what the sleep promises -----

  /** The worker does not sleep past a deadline; one that had passed when it computed its wait makes it not sleep. */
  ghost predicate InTime<Id>(ix: Index<Id>, w: Worker)
    requires ix.WellFormed() && w.Armed?
  {
    w.wake == w.at || forall key :: key in ix.Keys() ==> w.wake <= key
  }

  /** The property itself: an armed worker wakes in time, or a byte is waiting for it, or some thread that set the flag
      has still to write it. */
  ghost predicate NoMissedWakeUp<Id>(p: State<Id>) {
    p.sys.ix.Valid() && (p.worker.Armed? ==> InTime(p.sys.ix, p.worker) || Coming(p))
  }

  ghost predicate Coming<Id>(p: State<Id>) { p.pipe > 0 || p.wakers != map[] }

  /** While the worker is armed, the flag can only be set by someone who wakes it; another thread may clear it. */
  ghost predicate WakeInv<Id>(p: State<Id>) {
    && Inv(p.sys)
    && (p.worker.Armed? ==>
         && p.idle
         && (InTime(p.sys.ix, p.worker) || Coming(p))
         && (p.tickled ==> Coming(p)))
  }

  lemma WaitIsInTime<Id>(ix: Index<Id>, now: int)
    requires ix.Valid()
    ensures InTime(ix, Armed(now, now + Span(Wait(ix, now))))
  {
    if ix.queue != [] && now < ix.Keys()[0] {
      var d := ix.Keys()[0] - now;
      assert Span(d / NANOS_PER_MS) <= d;
      assert Wait(ix, now) <= d / NANOS_PER_MS;
      assert forall i :: 0 <= i < |ix.Keys()| ==> ix.Keys()[0] <= ix.Keys()[i];
    }
  }

  /** The wait is the time to the first deadline, short by less than a millisecond, but never more than five seconds. */
  lemma WaitIsExact<Id>(ix: Index<Id>, now: int, first: Id)
    requires ix.Valid() && first in ix.queue
    requires forall id :: id in ix.queue ==> ix.timers[first].next <= ix.timers[id].next
    ensures var wait, left := Wait(ix, now), ix.timers[first].next - now;
      if left <= 0 then wait == 0
      else if left >= 5_000_000_000 then wait == 5000
      else 1_000_000 * wait <= left < 1_000_000 * (wait + 1)
  {
    NextTimerIsExact(ix, now, first);
  }

  /** An insertion at the front by a thread sets the flag and leaves it with a wake-up exactly if the flag was clear;
      one behind the front does neither. */
  lemma AdditionInFull<Id>(p: State<Id>, tid: nat, id: Id, t: Timer)
    requires p.sys.ix.Valid() && CanHappen(p, AddTimer(tid, id, t))
    ensures var q, front := Happen(p, AddTimer(tid, id, t)), forall key :: key in p.sys.ix.Keys() ==> t.next <= key;
      && q.sys == Apply(p.sys, AddOp(id, t)) && (q.tickled <==> p.tickled || front)
      && q.wakers == (if front && !p.tickled then p.wakers[tid := ToCheck] else p.wakers)
      && q.pipe == p.pipe && q.idle == p.idle && q.worker == p.worker
  {
    AtFrontExactly(p.sys.ix, t.next);
  }

  /** What the worker's own steps do to flag and pipe, and the check that any thread may make. */
  lemma WorkerInFull<Id>(p: State<Id>)
    requires p.sys.ix.Valid()
    ensures Happen(p, CheckStopping) == p.(tickled := false)
    ensures p.worker == Busy ==> Happen(p, DrainPipe) == p.(pipe := 0)
    ensures p.worker.Armed? ==> Happen(p, Return) == p.(worker := Busy)
    ensures p.worker == Busy ==> Happen(p, GoIdle).idle && !Happen(p, LeaveIdle).idle
    ensures p.worker == Busy && p.idle ==>
      && !Happen(p, ComputeWait).tickled && Happen(p, ComputeWait).pipe == p.pipe
      && Happen(p, ComputeWait).worker.wake - p.sys.clock == 1_000_000 * Wait(p.sys.ix, p.sys.clock)
  {
  }

  /** A thread that has set the flag writes its byte in two steps of its own, whatever state the worker sleeps in. */
  lemma WakerDelivers<Id>(p: State<Id>, tid: nat) returns (q: State<Id>, r: State<Id>)
    requires WakeInv(p) && p.worker.Armed? && tid in p.wakers && p.wakers[tid] == ToCheck
    ensures CanHappen(p, LookForIdle(tid)) && q == Happen(p, LookForIdle(tid)) && q.sys == p.sys
    ensures CanHappen(q, WriteByte(tid)) && r == Happen(q, WriteByte(tid))
    ensures r.pipe == p.pipe + 1 && r.worker == p.worker && r.wakers == p.wakers - {tid}
  {
    q := Happen(p, LookForIdle(tid));
    r := Happen(q, WriteByte(tid));
  }

  /** Keys that are old, or no earlier than an old one, do not make a sleep too long. */
  lemma StillInTime<Id>(ix: Index<Id>, jx: Index<Id>, w: Worker)
    requires ix.WellFormed() && jx.WellFormed() && w.Armed? && InTime(ix, w)
    requires forall key :: key in jx.Keys() ==> key in ix.Keys() || exists d :: d in ix.Keys() && d <= key
    ensures InTime(jx, w)
  {
  }

  lemma InsertionBehindTheFront<Id>(ix: Index<Id>, key: int) returns (d: int)
    requires ix.Valid() && !AtFront(ix, key)
    ensures d in ix.Keys() && d <= key
  {
    d := ix.Keys()[0];
  }

  /** An insertion into `ix`, the set or the set without the timer's own entry: behind the front it is in time, at the
      front it has the worker woken. */
  lemma InsertionIsInTime<Id>(p: State<Id>, q: State<Id>, ix: Index<Id>, key: int)
    requires WakeInv(p) && p.worker.Armed? && q.worker == p.worker && q.sys.ix.Valid() && ix.Valid()
    requires forall k :: k in ix.Keys() ==> k in p.sys.ix.Keys()
    requires forall k :: k in q.sys.ix.Keys() ==> k in ix.Keys() || k == key
    requires !AtFront(ix, key) && InTime(p.sys.ix, p.worker)
    ensures InTime(q.sys.ix, q.worker)
  {
    var d := InsertionBehindTheFront(ix, key);
    StillInTime(p.sys.ix, q.sys.ix, p.worker);
  }

  lemma AddedKeys<Id>(ix: Index<Id>, id: Id, t: Timer)
    requires ix.Valid() && id !in ix.timers
    ensures Add(ix, id, t).WellFormed()
    ensures forall key :: key in Add(ix, id, t).Keys() ==> key in ix.Keys() || key == t.next
  {
    PutKeepsValid(ix, id, t);
    InsertKeepsValid(ix.Put(id, t), id);
  }

  lemma AddKeepsWakeInv<Id>(p: State<Id>, tid: nat, id: Id, t: Timer)
    requires WakeInv(p) && p.worker.Armed? && CanHappen(p, AddTimer(tid, id, t))
    ensures WakeInv(Happen(p, AddTimer(tid, id, t)))
  {
    var q, front := Happen(p, AddTimer(tid, id, t)), AtFront(p.sys.ix, t.next);
    var r := ApplyKeepsInv(p.sys, AddOp(id, t));
    if front && !p.tickled {
      assert tid in q.wakers;
    } else if !Coming(p) {
      AddedKeys(p.sys.ix, id, t);
      InsertionIsInTime(p, q, p.sys.ix, t.next);
    }
  }

  lemma MovedKeys<Id>(ix: Index<Id>, id: Id, ms: nat, next: int) returns (u: Index<Id>, r: Index<Id>)
    requires ix.Valid() && id in ix.timers
    ensures u == Unlink(ix, id) && r == Move(ix, id, ms, next) && u.Valid() && r.Valid()
    ensures forall key :: key in u.Keys() ==> key in ix.Keys()
    ensures forall key :: key in r.Keys() ==> key in u.Keys() || key == next
  {
    UnlinkKeepsValid(ix, id);
    u := Unlink(ix, id);
    r := MoveKeepsValid(ix, id, ms, next);
  }

  lemma ResetKeepsWakeInv<Id>(p: State<Id>, tid: nat, id: Id, ms: nat, fromNow: bool)
    requires WakeInv(p) && p.worker.Armed? && CanHappen(p, ResetTimer(tid, id, ms, fromNow))
    ensures WakeInv(Happen(p, ResetTimer(tid, id, ms, fromNow)))
  {
    var q := Happen(p, ResetTimer(tid, id, ms, fromNow));
    var r := ApplyKeepsInv(p.sys, ResetOp(id, ms, fromNow));
    assert q.sys == r;
    if Reinserts(p, id, ms, fromNow) {
      var next := ResetNext(p, id, ms, fromNow);
      var ix, moved := MovedKeys(p.sys.ix, id, ms, next);
      assert r.ix == moved;
      if AtFront(ix, next) && !p.tickled {
        assert tid in q.wakers;
      } else if !Coming(p) {
        InsertionIsInTime(p, q, ix, next);
      }
    } else {
      assert q == p;
    }
  }

  lemma CancelKeepsWakeInv<Id>(p: State<Id>, id: Id)
    requires WakeInv(p) && p.worker.Armed? && CanHappen(p, CancelTimer(id))
    ensures WakeInv(Happen(p, CancelTimer(id)))
  {
    var q := Happen(p, CancelTimer(id));
    var r := ApplyKeepsInv(p.sys, CancelOp(id));
    var ix := CancelKeepsValid(p.sys.ix, id);
    assert q.sys.ix == ix;
    if !Coming(p) {
      StillInTime(p.sys.ix, ix, p.worker);
    }
  }

  lemma RefreshKeepsWakeInv<Id>(p: State<Id>, id: Id)
    requires WakeInv(p) && p.worker.Armed? && CanHappen(p, RefreshTimer(id))
    ensures WakeInv(Happen(p, RefreshTimer(id)))
  {
    var q := Happen(p, RefreshTimer(id));
    var r := ApplyKeepsInv(p.sys, RefreshOp(id));
    assert TimerInv(p.sys, id);
    var ix := RefreshNeverMovesEarlier(p.sys.ix, id, p.sys.clock);
    assert q.sys.ix == ix;
    if !Coming(p) {
      StillInTime(p.sys.ix, ix, p.worker);
    }
  }

  lemma HappenKeepsWakeInv<Id>(p: State<Id>, e: Event<Id>)
    requires WakeInv(p) && CanHappen(p, e)
    ensures WakeInv(Happen(p, e))
  {
    if p.worker.Armed? {
      WhileArmed(p, e);
    } else {
      WhileBusy(p, e);
    }
  }

  lemma WhileArmed<Id>(p: State<Id>, e: Event<Id>)
    requires WakeInv(p) && p.worker.Armed? && CanHappen(p, e)
    ensures WakeInv(Happen(p, e))
  {
    if e.AddTimer? { AddKeepsWakeInv(p, e.tid, e.id, e.timer); }
    else if e.ResetTimer? { ResetKeepsWakeInv(p, e.tid, e.id, e.ms, e.fromNow); }
    else if e.CancelTimer? { CancelKeepsWakeInv(p, e.id); }
    else if e.RefreshTimer? { RefreshKeepsWakeInv(p, e.id); }
    else if e.Advance? { var r := TickKeepsInv(p.sys, e.clock); }
    else if e.LookForIdle? { assert e.tid in Happen(p, e).wakers; }
  }

  function TimerCall<Id>(p: State<Id>, e: Event<Id>): Option<Op<Id>> {
    match e
    case ExpireTimers(now) => Some(ExpireOp(now))
    case Advance(clock) => Some(TickOp(clock))
    case AddTimer(_, id, t) => Some(AddOp(id, t))
    case CancelTimer(id) => Some(CancelOp(id))
    case RefreshTimer(id) => Some(RefreshOp(id))
    case ResetTimer(_, id, ms, fromNow) => Some(ResetOp(id, ms, fromNow))
    case _ => None
  }

  /** As far as the timers go, a step is a call or nothing. */
  lemma HappenIsACall<Id>(p: State<Id>, e: Event<Id>)
    requires p.sys.ix.Valid() && CanHappen(p, e)
    ensures TimerCall(p, e).Some? ==> Enabled(p.sys, TimerCall(p, e).value)
    ensures Happen(p, e).sys == if TimerCall(p, e).Some? then Apply(p.sys, TimerCall(p, e).value) else p.sys
  {
  }

  lemma WhileBusy<Id>(p: State<Id>, e: Event<Id>)
    requires WakeInv(p) && p.worker == Busy && CanHappen(p, e)
    ensures WakeInv(Happen(p, e))
  {
    HappenIsACall(p, e);
    if e.ComputeWait? {
      WaitIsInTime(p.sys.ix, p.sys.clock);
    } else if TimerCall(p, e).Some? {
      var r := ApplyKeepsInv(p.sys, TimerCall(p, e).value);
    }
  }

  ghost predicate Behaviour<Id>(states: seq<State<Id>>, events: seq<Event<Id>>) {
    && |states| == |events| + 1
    && states[0].sys.ix == Index(map[], []) && states[0].sys.fired == [] && states[0].worker == Busy
    && forall i :: 0 <= i < |events| ==>
         states[i].sys.ix.Valid() && CanHappen(states[i], events[i]) && states[i + 1] == Happen(states[i], events[i])
  }

  /** At every moment of every interleaving no wake-up is missed. */
  lemma {:induction false} NeverMissesAWakeUp<Id>(states: seq<State<Id>>, events: seq<Event<Id>>, i: nat)
    requires Behaviour(states, events) && i < |states|
    ensures WakeInv(states[i]) && NoMissedWakeUp(states[i])
  {
    if i > 0 {
      NeverMissesAWakeUp(states, events, i - 1);
      HappenKeepsWakeInv(states[i - 1], events[i - 1]);
    }
  }

  lemma OneMoreEvent<Id>(states: seq<State<Id>>, events: seq<Event<Id>>, e: Event<Id>)
    returns (states': seq<State<Id>>, events': seq<Event<Id>>)
    requires Behaviour(states, events) && states[|events|].sys.ix.Valid() && CanHappen(states[|events|], e)
    ensures states' == states + [Happen(states[|events|], e)] && events' == events + [e]
    ensures Behaviour(states', events')
  {
    states', events' := states + [Happen(states[|events|], e)], events + [e];
    forall i | 0 <= i < |events'|
      ensures states'[i].sys.ix.Valid() && CanHappen(states'[i], events'[i])
      ensures states'[i + 1] == Happen(states'[i], events'[i])
    {
      assert i < |events| ==> states'[i] == states[i] && events'[i] == events[i] && states'[i + 1] == states[i + 1];
    }
  }

  lemma FallsAsleep<Id>() returns (states: seq<State<Id>>, events: seq<Event<Id>>)
    ensures Behaviour(states, events) && |events| == 2
    ensures states[2] == State(System(Index(map[], []), 0, []), false, 0, true, Armed(0, 5_000_000_000), map[])
  {
    var none: Index<Id> := Index(map[], []);
    assert none.WellFormed() && none.Keys() == [];
    states, events := [State(System(none, 0, []), false, 0, false, Busy, map[])], [];
    states, events := OneMoreEvent(states, events, GoIdle);
    states, events := OneMoreEvent(states, events, ComputeWait);
    NothingArmed(none, 0);
  }

  lemma OneTimer<Id>(id: Id, t: Timer) returns (none: Index<Id>, one: Index<Id>)
    ensures none == Index(map[], []) && one == Index(map[id := t], [id]) && none.Valid() && one.Valid()
    ensures one == Add(none, id, t) && AtFront(none, t.next) && t.next in one.Keys()
  {
    none, one := Index(map[], []), Index(map[id := t], [id]);
    assert none.WellFormed() && none.Keys() == [];
    assert one.WellFormed() && one.Keys() == [t.next];
    assert one == Add(none, id, t);
    assert one.Keys()[0] in one.Keys();
  }

  lemma TimerComesIn<Id>(id: Id, tid: nat) returns (states: seq<State<Id>>, events: seq<Event<Id>>, one: Index<Id>)
    ensures Behaviour(states, events) && |events| == 3 && events[2].AddTimer? && states[2].sys.ix.queue == []
    ensures one.Valid() && 1_000_000 in one.Keys()
    ensures states[3]
      == State(System(one, 0, []), true, 0, true, Armed(0, 5_000_000_000), map[tid := ToCheck])
  {
    states, events := FallsAsleep();
    var t := Timer(false, 1, 1_000_000, None);
    var none;
    none, one := OneTimer(id, t);
    states, events := OneMoreEvent(states, events, AddTimer(tid, id, t));
  }

  /** A behaviour in which the worker sleeps for five seconds, and a timer of one millisecond comes in: it would be
      missed but for the thread that added it, which writes the byte. */
  lemma SleeperIsWoken<Id>(id: Id, tid: nat) returns (states: seq<State<Id>>, events: seq<Event<Id>>)
    ensures Behaviour(states, events) && |events| == 5 && events[2].AddTimer? && states[2].sys.ix.queue == []
    ensures states[3].sys.ix.Valid() && states[3].worker.Armed? && !InTime(states[3].sys.ix, states[3].worker)
    ensures states[3].tickled && states[3].wakers == map[tid := ToCheck] && states[3].pipe == 0
    ensures states[5].pipe == 1 && states[5].wakers == map[] && states[5].worker == states[3].worker
  {
    var one;
    states, events, one := TimerComesIn(id, tid);
    states, events := OneMoreEvent(states, events, LookForIdle(tid));
    assert states[4].wakers == map[tid := ToWrite];
    states, events := OneMoreEvent(states, events, WriteByte(tid));
  }
}
