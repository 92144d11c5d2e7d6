/** Serial runs of the timer manager: any sequence of calls under a clock that never goes back. */
module TimerRuns {
  import opened Options
  import opened TimerIndex
  import opened TimerExpiry

  /** `fired` logs, in order, the timers whose callbacks expiry has handed out. */
  datatype System<Id(==)> = System(ix: Index<Id>, clock: int, fired: seq<Id>)

  /** A new timer's deadline and the `now` of expiry come from clock readings taken before the lock, so these
      readings may be older than the clock. */
  datatype Op<Id(==)> =
    | AddOp(id: Id, timer: Timer)
    | CancelOp(id: Id)
    | RefreshOp(id: Id)
    | ResetOp(id: Id, ms: nat, fromNow: bool)
    | ExpireOp(now: int)
    | TickOp(clock: int)

  ghost predicate Enabled<Id>(s: System<Id>, op: Op<Id>)
    requires s.ix.Valid()
  {
    match op
    case AddOp(id, t) => id !in s.ix.timers && t.next - Span(t.ms) <= s.clock
    case CancelOp(id) => id in s.ix.timers
    case RefreshOp(id) => id in s.ix.timers
    case ResetOp(id, _, _) => id in s.ix.timers
    case ExpireOp(now) => now <= s.clock && !Stuck(s.ix, now)
    case TickOp(clock) => s.clock <= clock
  }

  function Apply<Id(==)>(s: System<Id>, op: Op<Id>): System<Id>
    requires s.ix.Valid() && Enabled(s, op)
  {
    match op
    case AddOp(id, t) => s.(ix := Add(s.ix, id, t))
    case CancelOp(id) => s.(ix := Cancel(s.ix, id).0)
    case RefreshOp(id) =>
      s.(ix := Rearm(s.ix, id, s.ix.timers[id].ms, RefreshDeadline(s.ix.timers[id], s.clock)).0)
    case ResetOp(id, ms, fromNow) =>
      if ResetIsNoOp(s.ix.timers[id], ms, fromNow) then s
      else s.(ix := Rearm(s.ix, id, ms, ResetDeadline(s.ix.timers[id], ms, fromNow, s.clock)).0)
    case ExpireOp(now) => Expire(s, now)
    case TickOp(clock) => s.(clock := clock)
  }

  /** Without a callback and out of the set: cancelled, or a one-shot timer that has fired. (A timer added with an
      empty callback is not spent while it is armed.) */
  ghost predicate Spent<Id>(ix: Index<Id>, id: Id) {
    id in ix.timers && ix.timers[id].cb == None && id !in ix.queue
  }

  ghost predicate TimerInv<Id>(s: System<Id>, id: Id)
    requires id in s.ix.timers
  {
    var t := s.ix.timers[id];
    && t.next - Span(t.ms) <= s.clock
    && (!t.recurring ==> multiset(s.fired)[id] <= if Spent(s.ix, id) then 1 else 0)
  }

  ghost predicate Inv<Id>(s: System<Id>) {
    && s.ix.Valid()
    && (forall id :: id in s.ix.timers ==> TimerInv(s, id))
    && (forall id :: id in s.fired ==> id in s.ix.timers)
  }

  lemma DueIdsAreDistinct<Id>(ix: Index<Id>, now: int, id: Id)
    requires ix.Valid()
    ensures multiset(DueIds(ix, now))[id] <= 1
    ensures id in DueIds(ix, now) ==> id in ix.queue
  {
    DistinctOnce(DueIds(ix, now), id, ix);
  }

  lemma {:induction false} DistinctOnce<Id>(ids: seq<Id>, id: Id, ix: Index<Id>)
    requires ix.Valid() && ids <= ix.queue
    ensures multiset(ids)[id] <= 1
  {
    if ids != [] {
      var n := |ids| - 1;
      DistinctOnce(ids[..n], id, ix);
      assert ids == ids[..n] + [ids[n]];
      forall j | 0 <= j < n ensures ids[j] != ids[n] {
        assert ix.Keys()[j] != ix.Keys()[n];
      }
    }
  }

  function Expire<Id(==)>(s: System<Id>, now: int): System<Id>
    requires s.ix.Valid() && !Stuck(s.ix, now)
  {
    var r := Drain(s.ix, now);
    System(r.1, s.clock, s.fired + r.0)
  }

  lemma ExpireKeepsTimerInv<Id>(s: System<Id>, now: int, r: System<Id>, id: Id)
    requires Inv(s) && now <= s.clock && !Stuck(s.ix, now) && r == Expire(s, now) && id in s.ix.timers
    ensures id in r.ix.timers && TimerInv(r, id)
  {
    DrainKeepsTimerSet(s.ix, now);
    DrainFiresTimers(s.ix, now, id);
    DrainLeavesArmed(s.ix, now, id);
    DueIdsAre(s.ix, now, id);
    ExpireLogs(s, now, id);
    assert TimerInv(s, id);
  }

  lemma ExpireLogs<Id>(s: System<Id>, now: int, id: Id)
    requires s.ix.Valid() && !Stuck(s.ix, now)
    ensures multiset(Expire(s, now).fired)[id]
      == multiset(s.fired)[id] + if id in DueIds(s.ix, now) then 1 else 0
  {
    DrainTakesTheDueOnes(s.ix, now);
    DueIdsAreDistinct(s.ix, now, id);
    assert multiset(DueIds(s.ix, now))[id] == if id in DueIds(s.ix, now) then 1 else 0;
  }

  ghost predicate Kept<Id>(s: System<Id>, t: System<Id>) { Inv(t) && s.ix.timers.Keys <= t.ix.timers.Keys }

  lemma AddedTimerKeepsInv<Id>(s: System<Id>, id: Id, t: Timer) returns (r: System<Id>)
    requires Inv(s) && id !in s.ix.timers && t.next - Span(t.ms) <= s.clock
    ensures r == s.(ix := Add(s.ix, id, t)) && Kept(s, r)
  {
    var ix := AddKeepsValid(s.ix, id, t);
    r := s.(ix := ix);
    assert id !in s.fired;
    assert forall other :: other in s.ix.timers ==> TimerInv(s, other);
  }

  /** What keeps the invariant of every timer: only deadlines and callbacks change, no other timer enters the set, and
      only a timer with a callback, or one that leaves the set for good, is changed. */
  lemma ChangeKeepsInv<Id>(s: System<Id>, id: Id, t: Timer, r: System<Id>)
    requires Inv(s) && id in s.ix.timers && s.ix.timers[id].cb.Some?
    requires r.ix.Valid() && r.clock == s.clock && r.fired == s.fired && r.ix.timers == s.ix.timers[id := t]
    requires t.recurring == s.ix.timers[id].recurring && t.next - Span(t.ms) <= s.clock
    requires forall other :: other != id && other in r.ix.queue ==> other in s.ix.queue
    ensures Kept(s, r)
  {
    forall other | other in r.ix.timers ensures TimerInv(r, other) {
      assert TimerInv(s, other);
    }
  }

  lemma CancelKeepsInv<Id>(s: System<Id>, id: Id) returns (r: System<Id>)
    requires Inv(s) && id in s.ix.timers
    ensures r == s.(ix := Cancel(s.ix, id).0) && Kept(s, r)
  {
    var ix := CancelKeepsValid(s.ix, id);
    r := s.(ix := ix);
    if s.ix.timers[id].cb.Some? {
      assert TimerInv(s, id);
      ChangeKeepsInv(s, id, s.ix.timers[id].(cb := None), r);
    } else {
      assert r == s;
    }
  }

  lemma RearmKeepsInv<Id>(s: System<Id>, id: Id, ms: nat, next: int) returns (r: System<Id>)
    requires Inv(s) && id in s.ix.timers && next - Span(ms) <= s.clock
    ensures r == s.(ix := Rearm(s.ix, id, ms, next).0) && Kept(s, r)
  {
    var ix := RearmKeepsValid(s.ix, id, ms, next);
    r := s.(ix := ix);
    if ix != s.ix {
      ChangeKeepsInv(s, id, s.ix.timers[id].(ms := ms, next := next), r);
    } else {
      assert r == s;
    }
  }

  lemma ResetKeepsInv<Id>(s: System<Id>, id: Id, ms: nat, fromNow: bool) returns (r: System<Id>)
    requires Inv(s) && id in s.ix.timers
    ensures r == Apply(s, ResetOp(id, ms, fromNow)) && Kept(s, r)
  {
    if ResetIsNoOp(s.ix.timers[id], ms, fromNow) {
      r := s;
    } else {
      assert TimerInv(s, id);
      r := RearmKeepsInv(s, id, ms, ResetDeadline(s.ix.timers[id], ms, fromNow, s.clock));
    }
  }

  lemma ExpireKeepsInv<Id>(s: System<Id>, now: int) returns (r: System<Id>)
    requires Inv(s) && now <= s.clock && !Stuck(s.ix, now)
    ensures r == Expire(s, now) && Kept(s, r)
  {
    r := Expire(s, now);
    assert r.ix.Valid() by { DrainTakesTheDueOnes(s.ix, now); }
    assert r.ix.timers.Keys == s.ix.timers.Keys by { DrainKeepsTimerSet(s.ix, now); }
    forall id | id in r.ix.timers ensures TimerInv(r, id) {
      ExpireKeepsTimerInv(s, now, r, id);
    }
    forall id | id in r.fired ensures id in r.ix.timers {
      FiredAreTimers(s, now, id);
    }
  }

  lemma FiredAreTimers<Id>(s: System<Id>, now: int, id: Id)
    requires Inv(s) && !Stuck(s.ix, now) && id in Expire(s, now).fired
    ensures id in s.ix.timers
  {
    DrainTakesTheDueOnes(s.ix, now);
    DueIdsAre(s.ix, now, id);
  }

  lemma ApplyKeepsInv<Id>(s: System<Id>, op: Op<Id>) returns (r: System<Id>)
    requires Inv(s) && Enabled(s, op)
    ensures r == Apply(s, op) && Kept(s, r)
  {
    match op
    case AddOp(id, t) => r := AddedTimerKeepsInv(s, id, t);
    case CancelOp(id) => r := CancelKeepsInv(s, id);
    case RefreshOp(id) => r := RearmKeepsInv(s, id, s.ix.timers[id].ms, RefreshDeadline(s.ix.timers[id], s.clock));
    case ResetOp(id, ms, fromNow) => r := ResetKeepsInv(s, id, ms, fromNow);
    case ExpireOp(now) => r := ExpireKeepsInv(s, now);
    case TickOp(clock) => r := TickKeepsInv(s, clock);
  }

  lemma TickKeepsInv<Id>(s: System<Id>, clock: int) returns (r: System<Id>)
    requires Inv(s) && s.clock <= clock
    ensures r == s.(clock := clock) && Kept(s, r)
  {
    r := s.(clock := clock);
    assert forall id :: id in s.ix.timers ==> TimerInv(s, id);
  }

  /** A successful `cancel` leaves its timer spent. */
  lemma CancelledIsSpent<Id>(ix: Index<Id>, id: Id)
    requires ix.Valid() && id in ix.timers && Cancel(ix, id).1
    ensures Spent(Cancel(ix, id).0, id)
  {
    var r := CancelKeepsValid(ix, id);
  }

  lemma RearmLeavesSpentTimers<Id>(ix: Index<Id>, other: Id, ms: nat, next: int, id: Id)
    requires ix.Valid() && other in ix.timers && Spent(ix, id)
    ensures Spent(Rearm(ix, other, ms, next).0, id)
  {
    var r := RearmKeepsValid(ix, other, ms, next);
    assert Spent(r, id);
  }

  lemma AddLeavesSpentTimers<Id>(ix: Index<Id>, other: Id, t: Timer, id: Id)
    requires ix.Valid() && other !in ix.timers && Spent(ix, id)
    ensures Spent(Add(ix, other, t), id)
  {
    var r := AddKeepsValid(ix, other, t);
  }

  lemma CancelLeavesSpentTimers<Id>(ix: Index<Id>, other: Id, id: Id)
    requires ix.Valid() && other in ix.timers && Spent(ix, id)
    ensures Spent(Cancel(ix, other).0, id)
  {
    var r := CancelKeepsValid(ix, other);
  }

  /** Only expiry hands out callbacks, and no call brings a spent timer back. */
  lemma CallsLeaveSpentTimers<Id>(s: System<Id>, op: Op<Id>, id: Id)
    requires s.ix.Valid() && Enabled(s, op) && !op.ExpireOp? && Spent(s.ix, id)
    ensures Spent(Apply(s, op).ix, id)
  {
    match op
    case AddOp(other, t) => AddLeavesSpentTimers(s.ix, other, t, id);
    case CancelOp(other) => CancelLeavesSpentTimers(s.ix, other, id);
    case RefreshOp(other) =>
      RearmLeavesSpentTimers(s.ix, other, s.ix.timers[other].ms, RefreshDeadline(s.ix.timers[other], s.clock), id);
    case ResetOp(other, ms, fromNow) =>
      RearmLeavesSpentTimers(s.ix, other, ms, ResetDeadline(s.ix.timers[other], ms, fromNow, s.clock), id);
    case TickOp(_) =>
  }

  lemma ExpiryLeavesSpentTimers<Id>(s: System<Id>, now: int, id: Id)
    requires s.ix.Valid() && !Stuck(s.ix, now) && Spent(s.ix, id)
    ensures Spent(Expire(s, now).ix, id) && multiset(Expire(s, now).fired)[id] == multiset(s.fired)[id]
  {
    ExpireLogs(s, now, id);
    DueIdsAre(s.ix, now, id);
    DrainFiresTimers(s.ix, now, id);
    DrainLeavesArmed(s.ix, now, id);
  }

  /** A spent timer stays so and never fires again. */
  lemma SpentStaysSpent<Id>(s: System<Id>, op: Op<Id>, id: Id)
    requires s.ix.Valid() && Enabled(s, op) && Spent(s.ix, id)
    ensures Spent(Apply(s, op).ix, id) && multiset(Apply(s, op).fired)[id] == multiset(s.fired)[id]
  {
    if op.ExpireOp? {
      ExpiryLeavesSpentTimers(s, op.now, id);
    } else {
      CallsLeaveSpentTimers(s, op, id);
    }
  }

  // ----- runs -----

  ghost predicate Run<Id>(states: seq<System<Id>>, ops: seq<Op<Id>>) {
    && |states| == |ops| + 1
    && states[0].ix == Index(map[], []) && states[0].fired == []
    && forall i :: 0 <= i < |ops| ==>
         states[i].ix.Valid() && Enabled(states[i], ops[i]) && states[i + 1] == Apply(states[i], ops[i])
  }

  lemma {:induction false} RunKeepsInv<Id>(states: seq<System<Id>>, ops: seq<Op<Id>>, i: nat)
    requires Run(states, ops) && i < |states|
    ensures Inv(states[i])
  {
    if i > 0 {
      RunKeepsInv(states, ops, i - 1);
      var r := ApplyKeepsInv(states[i - 1], ops[i - 1]);
    }
  }

  /** Once cancelled (or spent), a timer is never handed out again in the rest of the run. */
  lemma {:induction false} CancelledNeverFires<Id>(states: seq<System<Id>>, ops: seq<Op<Id>>, i: nat, j: nat, id: Id)
    requires Run(states, ops) && i <= j < |states| && Spent(states[i].ix, id)
    ensures Spent(states[j].ix, id) && multiset(states[j].fired)[id] == multiset(states[i].fired)[id]
    decreases j
  {
    if i < j {
      CancelledNeverFires(states, ops, i, j - 1, id);
      SpentStaysSpent(states[j - 1], ops[j - 1], id);
    }
  }

  /** In every run expiry fires exactly the timers that are armed and due, each once, and no other call fires any. */
  lemma FiredExactlyWhenDue<Id>(states: seq<System<Id>>, ops: seq<Op<Id>>, i: nat, id: Id)
    requires Run(states, ops) && i < |ops|
    ensures var s, before, after := states[i], multiset(states[i].fired)[id], multiset(states[i + 1].fired)[id];
      if ops[i].ExpireOp? && id in s.ix.queue && s.ix.timers[id].next <= ops[i].now then after == before + 1
      else after == before
  {
    if ops[i].ExpireOp? {
      ExpireLogs(states[i], ops[i].now, id);
      DueIdsAre(states[i].ix, ops[i].now, id);
    }
  }

  /** In every run a one-shot timer fires at most once, and an armed one has not fired yet. */
  lemma OneShotFiresAtMostOnce<Id>(states: seq<System<Id>>, ops: seq<Op<Id>>, i: nat, id: Id)
    requires Run(states, ops) && i < |states| && id in states[i].ix.timers && !states[i].ix.timers[id].recurring
    ensures multiset(states[i].fired)[id] <= 1
    ensures id in states[i].ix.queue ==> id !in states[i].fired
  {
    RunKeepsInv(states, ops, i);
    assert TimerInv(states[i], id);
  }

  /** No deadline is earlier in `r`: the timer's own does not decrease, and every key of `r` is an old key or not
      before the key that was taken out. */
  ghost predicate NothingEarlier<Id>(ix: Index<Id>, r: Index<Id>, id: Id)
    requires ix.Valid() && id in ix.timers && r.Valid()
  {
    && id in r.timers && r.timers[id].next >= ix.timers[id].next
    && forall key :: key in r.Keys() ==>
         key in ix.Keys() || (key >= ix.timers[id].next && ix.timers[id].next in ix.Keys())
  }

  /** A deadline that is at most one period ahead of the clock - which `TimerInv` keeps for every timer in every
      run - is never moved earlier by `refresh`. */
  lemma RefreshNeverMovesEarlier<Id>(ix: Index<Id>, id: Id, now: int) returns (r: Index<Id>)
    requires ix.Valid() && id in ix.timers && ix.timers[id].next - Span(ix.timers[id].ms) <= now
    ensures r == Rearm(ix, id, ix.timers[id].ms, RefreshDeadline(ix.timers[id], now)).0
    ensures r.Valid() && NothingEarlier(ix, r, id)
  {
    r := RearmKeepsValid(ix, id, ix.timers[id].ms, RefreshDeadline(ix.timers[id], now));
  }

  // ----- runs that reach what the class does not expect -----

  /** The empty manager after one timer has been added, and after a second one with the same deadline. */
  lemma TwoOfOneDeadline<Id>(a: Id, b: Id, t: Timer) returns (one: Index<Id>, two: Index<Id>)
    requires a != b
    ensures one == Index(map[a := t], [a]) && two == Index(map[a := t, b := t], [a])
    ensures one.Valid() && one == Add(Index(map[], []), a, t)
    ensures two.Valid() && two == Add(one, b, t)
  {
    one, two := Index(map[a := t], [a]), Index(map[a := t, b := t], [a]);
    assert one.WellFormed() && one.Keys() == [t.next];
    assert two.WellFormed() && two.Keys() == [t.next];
    assert one == Add(Index(map[], []), a, t);
    assert one.Put(b, t) == two;
    FindIsExact(two, t.next);
    assert two == Add(one, b, t);
  }

  lemma Began<Id>(clock: int) returns (states: seq<System<Id>>, ops: seq<Op<Id>>)
    ensures Run(states, ops) && ops == [] && states == [System(Index(map[], []), clock, [])]
  {
    states, ops := [System(Index(map[], []), clock, [])], [];
  }

  lemma GoesOn<Id>(states: seq<System<Id>>, ops: seq<Op<Id>>, s: System<Id>, op: Op<Id>, r: System<Id>)
    requires Run(states, ops) && s == states[|ops|] && s.ix.Valid() && Enabled(s, op) && r == Apply(s, op)
    ensures Run(states + [r], ops + [op])
  {
    var states', ops' := states + [r], ops + [op];
    forall i | 0 <= i < |ops'|
      ensures states'[i].ix.Valid() && Enabled(states'[i], ops'[i]) && states'[i + 1] == Apply(states'[i], ops'[i])
    {
      assert i < |ops| ==> states'[i] == states[i] && ops'[i] == ops[i] && states'[i + 1] == states[i + 1];
    }
  }

  /** Two timers of one deadline, added in turn, and the run so far. */
  lemma AddTwo<Id>(a: Id, b: Id, t: Timer) returns (states: seq<System<Id>>, ops: seq<Op<Id>>, two: Index<Id>)
    requires a != b && t.next == Span(t.ms)
    ensures Run(states, ops) && |states| == 3 && states[2] == System(two, 0, []) && two.Valid()
    ensures two == Index(map[a := t, b := t], [a])
  {
    states, ops := Began(0);
    var one;
    one, two := TwoOfOneDeadline(a, b, t);
    var none: Index<Id> := Index(map[], []);
    assert none.WellFormed() && none.Keys() == [];
    GoesOn(states, ops, states[0], AddOp(a, t), System(one, 0, []));
    states, ops := states + [System(one, 0, [])], ops + [AddOp(a, t)];
    GoesOn(states, ops, states[1], AddOp(b, t), System(two, 0, []));
    states, ops := states + [System(two, 0, [])], ops + [AddOp(b, t)];
  }

  /** A run in which cancelling the second of two timers of one deadline disarms the first. */
  lemma CancelOfALostTimer<Id>(a: Id, b: Id, ms: nat, cb: Callback) returns (states: seq<System<Id>>, ops: seq<Op<Id>>)
    requires a != b
    ensures Run(states, ops) && |states| == 4 && ops[2] == CancelOp(b)
    ensures a in states[2].ix.queue && a !in states[3].ix.queue && states[3].ix.timers[a].cb.Some?
  {
    var two;
    states, ops, two := AddTwo(a, b, Timer(false, ms, Span(ms), Some(cb)));
    var three := CancelKeepsValid(two, b);
    GoesOn(states, ops, states[2], CancelOp(b), System(three, 0, []));
    assert a in two.queue && a !in three.queue && three.timers[a].cb.Some?;
    states, ops := states + [System(three, 0, [])], ops + [CancelOp(b)];
  }

  /** A run that reaches an index on which the draining loop does not end: one recurring timer of period zero. */
  lemma ZeroPeriodRunGetsStuck<Id>(a: Id, cb: Callback) returns (states: seq<System<Id>>, ops: seq<Op<Id>>)
    ensures Run(states, ops) && |states| == 2 && states[1].ix.Valid()
    ensures Stuck(states[1].ix, states[1].clock) && !Ends(states[1].ix, states[1].clock)
  {
    var t := Timer(true, 0, 0, Some(cb));
    var one := Index(map[a := t], [a]);
    assert one.WellFormed() && one.Keys() == [0];
    assert one == Add(Index(map[], []), a, t);
    ops := [AddOp(a, t)];
    states := [System(Index(map[], []), 0, []), System(one, 0, [])];
    assert states[0].ix.WellFormed() && states[0].ix.Keys() == [];
    assert a in one.queue;
    LoopEndsExactlyWhenNotStuck(one, 0);
  }
}
