/** The timer manager: timer objects whose deadlines change in place, and the ordered set that holds the armed ones.
    Clock readings are parameters. */
module TimerManagement {
  import opened Options
  import opened TimerIndex
  import opened TimerExpiry
  import opened TimerRollover

  class ManagedTimer {
    const recurring: bool
    var ms: nat
    var next: int
    var cb: Option<Callback>

    function Value(): Timer
      reads this
    {
      Timer(recurring, ms, next, cb)
    }

    constructor (recurring: bool, ms: nat, next: int, cb: Option<Callback>)
      ensures Value() == Timer(recurring, ms, next, cb)
    {
      this.recurring, this.ms, this.next, this.cb := recurring, ms, next, cb;
    }
  }

  /** A clock that falls back by more than this is taken for a rollover. */
  const ROLLOVER_MS: nat := 60 * 60 * 1000

  predicate RolledOver(previous: int, clock: int) { clock < previous - Span(ROLLOVER_MS) }

  /** A fall by more than an hour is a rollover. */
  lemma RolloverIsAnHour(previous: int, clock: int)
    ensures RolledOver(previous, clock) <==> previous - clock > 3600 * 1_000_000_000
  {
  }

  class TimerManager {
    var timers: seq<ManagedTimer>
    var tickled: bool
    var previousTime: int
    ghost var all: set<ManagedTimer>

    ghost function Values(): map<ManagedTimer, Timer>
      reads this`all, all
    {
      map t | t in all :: t.Value()
    }

    ghost function Ix(): Index<ManagedTimer>
      reads this`timers, this`all, all
    {
      Index(Values(), timers)
    }

    ghost predicate Valid()
      reads this`timers, this`all, all
    {
      Ix().Valid()
    }

    constructor (now: int)
      ensures Valid() && Ix() == Index(map[], []) && all == {} && !tickled
    {
      timers, tickled, previousTime, all := [], false, now, {};
    }

    lemma KeyAt(i: nat)
      requires Valid() && i < |timers|
      ensures timers[i] in all && Ix().timers[timers[i]] == timers[i].Value() && Ix().Keys()[i] == timers[i].next
    {
      assert timers[i] in Ix().queue;
    }

    method LowerBound(key: int) returns (i: nat)
      requires Valid()
      ensures i == Rank(Ix().Keys(), key) && i <= |timers|
    {
      i := 0;
      while i < |timers| && timers[i].next < key
        invariant i <= |timers| && (i > 0 ==> Ix().Keys()[i - 1] < key)
      {
        KeyAt(i);
        i := i + 1;
      }
      if i < |timers| {
        KeyAt(i);
      }
      RankIs(Ix().Keys(), key, i);
    }

    method FindEntry(key: int) returns (r: Option<nat>)
      requires Valid()
      ensures r == Ix().Find(key)
    {
      var i := LowerBound(key);
      if i < |timers| {
        KeyAt(i);
      }
      return if i < |timers| && timers[i].next == key then Some(i) else None;
    }

    method EraseEntry(i: nat)
      requires Valid() && i < |timers|
      modifies this`timers
      ensures Valid() && Ix() == old(Ix()).Erase(i)
    {
      EraseKeepsValid(Ix(), i);
      timers := timers[..i] + timers[i + 1..];
    }

    /** Returns whether the set's insertion ends at the first entry. */
    method InsertEntry(t: ManagedTimer) returns (front: bool)
      requires Valid() && t in all && t !in timers
      modifies this`timers
      ensures Valid() && Ix() == old(Ix()).Insert(t)
      ensures front <==> AtFront(old(Ix()), t.next)
    {
      ghost var ix := Ix();
      assert ix.timers[t] == t.Value();
      var i := LowerBound(t.next);
      if i < |timers| {
        KeyAt(i);
      }
      if i == |timers| || timers[i].next != t.next {
        timers := timers[..i] + [t] + timers[i..];
      }
      assert Ix() == ix.Insert(t);
      InsertKeepsValid(ix, t);
      return i == 0;
    }

    /** Inserts under the lock; `wake` says that the caller must wake the idle worker after releasing it. */
    method InsertTimer(t: ManagedTimer) returns (wake: bool)
      requires Valid() && t in all && t !in timers
      modifies this`timers, this`tickled
      ensures Valid() && Ix() == old(Ix()).Insert(t)
      ensures wake <==> AtFront(old(Ix()), t.next) && !old(tickled)
      ensures tickled <==> old(tickled) || wake
    {
      var front := InsertEntry(t);
      wake := front && !tickled;
      if wake {
        tickled := true;
      }
    }

    /** An empty callback (`None`) is accepted like any other. */
    method AddTimer(ms: nat, cb: Option<Callback>, recurring: bool, now: int) returns (t: ManagedTimer, wake: bool)
      requires Valid()
      modifies this
      ensures Valid() && fresh(t) && all == old(all) + {t} && t !in old(timers)
      ensures Ix() == Add(old(Ix()), t, Timer(recurring, ms, now + Span(ms), cb))
      ensures t.recurring == recurring && t.ms == ms && t.next == now + 1_000_000 * ms && t.cb == cb
      ensures wake <==> AtFront(old(Ix()), now + Span(ms)) && !old(tickled)
      ensures tickled <==> old(tickled) || wake
    {
      t := new ManagedTimer(recurring, ms, now + Span(ms), cb);
      Adopt(t);
      ghost var put := Ix();
      assert put == old(Ix()).Put(t, Timer(recurring, ms, now + Span(ms), cb));
      wake := InsertTimer(t);
      assert Ix() == put.Insert(t);
    }

    /** A timer that is not armed yet. */
    ghost method Adopt(t: ManagedTimer)
      requires Valid() && t !in all
      modifies this`all
      ensures Valid() && all == old(all) + {t} && t !in timers && Ix() == old(Ix()).Put(t, t.Value())
      ensures Ix().Keys() == old(Ix().Keys())
    {
      ghost var ix := Ix();
      PutKeepsValid(ix, t, t.Value());
      all := all + {t};
      assert Ix() == ix.Put(t, t.Value());
    }

    /** Changes a timer in place. */
    method Change(t: ManagedTimer, ms: nat, next: int, cb: Option<Callback>)
      requires t in all
      modifies t
      ensures t.Value() == old(t.Value()).(ms := ms, next := next, cb := cb)
      ensures Values() == old(Values())[t := t.Value()]
    {
      t.ms, t.next, t.cb := ms, next, cb;
    }

    method Unlink(t: ManagedTimer) returns (found: bool)
      requires Valid() && t in all
      modifies this`timers
      ensures Valid() && Ix() == TimerIndex.Unlink(old(Ix()), t) && t !in timers
      ensures found <==> old(Ix()).Find(t.next).Some?
    {
      UnlinkKeepsValid(Ix(), t);
      assert Ix().timers[t] == t.Value();
      var e := FindEntry(t.next);
      if e.Some? {
        EraseEntry(e.value);
      }
      return e.Some?;
    }

    method Cancel(t: ManagedTimer) returns (ok: bool)
      requires Valid() && t in all
      modifies this`timers, t
      ensures Valid() && (Ix(), ok) == TimerIndex.Cancel(old(Ix()), t)
    {
      assert Ix().timers[t] == t.Value();
      if t.cb == None {
        return false;
      }
      ghost var cleared := Ix().Put(t, Ix().timers[t].(cb := None));
      assert cleared.WellFormed() && cleared.Keys() == Ix().Keys();
      Change(t, t.ms, t.next, None);
      assert Ix() == cleared;
      var _ := Unlink(t);
      return true;
    }

    /** Takes the entry out and changes the timer while the set does not hold it. */
    method Detach(t: ManagedTimer, ms: nat, next: int)
      requires Valid() && t in all
      modifies this`timers, t
      ensures Valid() && t !in timers && t.Value() == old(t.Value()).(ms := ms, next := next)
      ensures Ix() == TimerIndex.Unlink(old(Ix()), t).Put(t, old(Ix()).timers[t].(ms := ms, next := next))
    {
      assert Ix().timers[t] == t.Value();
      var _ := Unlink(t);
      PutKeepsValid(Ix(), t, t.Value().(ms := ms, next := next));
      Change(t, ms, next, t.cb);
    }

    method IsMovable(t: ManagedTimer) returns (b: bool)
      requires Valid() && t in all
      ensures b <==> Movable(Ix(), t)
    {
      assert Ix().timers[t] == t.Value();
      var e := FindEntry(t.next);
      return t.cb.Some? && e.Some?;
    }

    method MoveEntry(t: ManagedTimer, ms: nat, next: int)
      requires Valid() && t in all
      modifies this`timers, t
      ensures Valid() && Ix() == Move(old(Ix()), t, ms, next)
    {
      Detach(t, ms, next);
      var _ := InsertEntry(t);
    }

    method Refresh(t: ManagedTimer, now: int) returns (ok: bool)
      requires Valid() && t in all
      modifies this`timers, t
      ensures Valid()
      ensures (Ix(), ok) == TimerIndex.Rearm(old(Ix()), t, old(t.ms), RefreshDeadline(old(t.Value()), now))
    {
      var next := RefreshDeadline(t.Value(), now);
      ok := IsMovable(t);
      if ok {
        MoveEntry(t, t.ms, next);
      }
    }

    /** The part of `reset` behind its early exit; the entry goes back in through `addTimer`, which may wake. */
    method Rearm(t: ManagedTimer, ms: nat, next: int) returns (ok: bool, wake: bool)
      requires Valid() && t in all
      modifies this`timers, this`tickled, t
      ensures Valid() && (Ix(), ok) == TimerIndex.Rearm(old(Ix()), t, ms, next)
      ensures wake <==> ok && AtFront(TimerIndex.Unlink(old(Ix()), t), next) && !old(tickled)
      ensures tickled <==> old(tickled) || wake
    {
      ghost var unlinked := TimerIndex.Unlink(Ix(), t);
      UnlinkKeepsValid(Ix(), t);
      ghost var ix := Ix();
      ok := IsMovable(t);
      assert TimerIndex.Rearm(ix, t, ms, next) == if ok then (Move(ix, t, ms, next), true) else (ix, false);
      wake := false;
      if ok {
        Detach(t, ms, next);
        PutKeepsValid(unlinked, t, t.Value());
        wake := InsertTimer(t);
      }
    }

    method Reset(t: ManagedTimer, ms: nat, fromNow: bool, now: int) returns (ok: bool, wake: bool)
      requires Valid() && t in all
      modifies this`timers, this`tickled, t
      ensures Valid() && (tickled <==> old(tickled) || wake)
      ensures var next := ResetDeadline(old(t.Value()), ms, fromNow, now);
        if ResetIsNoOp(old(t.Value()), ms, fromNow) then ok && !wake && Ix() == old(Ix())
        else
          && (Ix(), ok) == TimerIndex.Rearm(old(Ix()), t, ms, next)
          && (wake <==> ok && AtFront(TimerIndex.Unlink(old(Ix()), t), next) && !old(tickled))
    {
      if ms == t.ms && !fromNow {
        return true, false;
      }
      var next := ResetDeadline(t.Value(), ms, fromNow, now);
      ok, wake := Rearm(t, ms, next);
    }

    method GetNextTimer(now: int) returns (wait: nat)
      requires Valid()
      modifies this`tickled
      ensures !tickled && wait == NextTimer(Ix(), now)
    {
      tickled := false;
      if timers == [] {
        return NO_TIMER;
      }
      KeyAt(0);
      var time := timers[0].next;
      if now >= time {
        return 0;
      }
      return (time - now) / NANOS_PER_MS;
    }

    /** Takes the first entry out and starts its timer's next period, or spends it. */
    method PopFirst(now: int) returns (t: ManagedTimer, cb: Option<Callback>)
      requires Valid() && timers != []
      modifies this`timers, all
      ensures t == old(timers[0]) && t in all && all == old(all) && cb == old(Ix().timers[timers[0]].cb)
      ensures Ix() == Pop(old(Ix()), now)
    {
      KeyAt(0);
      t := timers[0];
      cb := t.cb;
      timers := timers[1..];
      if t.recurring {
        Change(t, t.ms, now + Span(t.ms), t.cb);
      } else {
        Change(t, t.ms, t.next, None);
      }
    }

    /** One turn of the draining loop. */
    method PopExpired(now: int) returns (cb: Option<Callback>)
      requires Valid() && timers != []
      modifies this`timers, all
      ensures Valid() && Ix() == Step(old(Ix()), now) && all == old(all)
      ensures cb == old(Ix().timers[timers[0]].cb)
    {
      ghost var ix := Ix();
      KeyAt(0);
      ghost var p, s := StepIs(ix, now);
      var t;
      t, cb := PopFirst(now);
      if t.recurring {
        var _ := InsertEntry(t);
      }
      assert Ix() == s;
    }

    /** The loop without a rollover. */
    method ListDue(now: int) returns (cbs: seq<Option<Callback>>)
      requires Valid() && !Stuck(Ix(), now)
      modifies this`timers, all
      ensures Valid() && all == old(all) && Ix() == Drain(old(Ix()), now).1
      ensures |cbs| == |DueIds(old(Ix()), now)|
      ensures forall i :: 0 <= i < |cbs| ==> cbs[i] == old(Ix()).timers[DueIds(old(Ix()), now)[i]].cb
    {
      ghost var ix := Ix();
      ProgressStart(ix, now);
      cbs := [];
      while |timers| > 0 && timers[0].next <= now
        invariant Valid() && all == old(all)
        invariant Progress(ix, now, Ix(), cbs)
        decreases DueCount(Ix(), now)
      {
        KeyAt(0);
        ghost var s := ProgressStep(ix, now, Ix(), cbs);
        var cb := PopExpired(now);
        cbs := cbs + [cb];
      }
      if |timers| > 0 {
        KeyAt(0);
      }
      ProgressEnd(ix, now, Ix(), cbs);
    }

    /** The loop after a rollover. */
    method ListAll(now: int) returns (cbs: seq<Option<Callback>>)
      requires Valid() && AllAbsorbed(Ix(), now)
      modifies this`timers, all
      ensures Valid() && all == old(all) && Ix() == FireAll(old(Ix()), now)
      ensures |cbs| == |old(timers)|
      ensures forall i :: 0 <= i < |cbs| ==> cbs[i] == old(Ix()).timers[old(timers)[i]].cb
    {
      ghost var ix := Ix();
      RolloverProgressStart(ix, now);
      cbs := [];
      while |timers| > 0
        invariant Valid() && all == old(all)
        invariant RolloverProgress(ix, now, Ix(), cbs)
        decreases |timers|
      {
        ghost var p := RolloverProgressStep(ix, now, Ix(), cbs);
        var cb := PopExpired(now);
        cbs := cbs + [cb];
      }
      RolloverProgressEnd(ix, now, Ix(), cbs);
    }

    /** `clock` is a second reading, for the rollover check. */
    method DetectClockRollover(clock: int) returns (rollover: bool)
      modifies this`previousTime
      ensures rollover <==> RolledOver(old(previousTime), clock)
      ensures previousTime == clock
    {
      rollover := clock < previousTime - Span(ROLLOVER_MS);
      previousTime := clock;
    }

    /** The callbacks of the timers due at `now`, or of all timers after a rollover. What is required is exactly what
        makes the loop end. */
    method ListExpired(now: int, clock: int) returns (cbs: seq<Option<Callback>>)
      requires Valid()
      requires if RolledOver(previousTime, clock) then AllAbsorbed(Ix(), now) else !Stuck(Ix(), now)
      modifies this`timers, this`previousTime, all
      ensures Valid() && all == old(all) && previousTime == clock
      ensures var ix, rollover := old(Ix()), RolledOver(old(previousTime), clock);
        var ids := if rollover then ix.queue else DueIds(ix, now);
        && Ix() == (if rollover then FireAll(ix, now) else Drain(ix, now).1)
        && |cbs| == |ids| && forall i :: 0 <= i < |cbs| ==> cbs[i] == ix.timers[ids[i]].cb
    {
      var rollover := DetectClockRollover(clock);
      if rollover {
        cbs := ListAll(now);
      } else {
        cbs := ListDue(now);
      }
    }
  }
}
