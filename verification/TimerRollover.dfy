/** The draining loop after a clock rollover: it takes whatever is in the set, due or not, until the set is empty. */
module TimerRollover {
  import opened Options
  import opened TimerIndex
  import opened TimerExpiry

  /** A recurring timer does not come back: a later entry has its new deadline. */
  ghost predicate Absorbed<Id>(ix: Index<Id>, t: Timer, now: int)
    requires ix.WellFormed()
  {
    t.recurring ==> now + Span(t.ms) > t.next && now + Span(t.ms) in ix.Keys()
  }

  ghost predicate AllAbsorbed<Id>(ix: Index<Id>, now: int)
    requires ix.WellFormed()
  {
    forall id :: id in ix.queue ==> Absorbed(ix, ix.timers[id], now)
  }

  /** The loop, started with `ix`, empties the set after at most `n` turns. */
  ghost predicate EmptiesWithin<Id>(ix: Index<Id>, now: int, n: nat)
    requires ix.Valid()
    decreases n
  {
    ix.queue == [] || (n > 0 && Step(ix, now).Valid() && EmptiesWithin(Step(ix, now), now, n - 1))
  }

  ghost predicate Empties<Id>(ix: Index<Id>, now: int)
    requires ix.Valid()
  {
    exists n: nat :: EmptiesWithin(ix, now, n)
  }

  /** After a rollover the loop ends if and only if every recurring timer in the set finds its new deadline taken by a
      later entry; one that comes back would come back at every further turn. */
  lemma RolloverLoopEndsExactly<Id>(ix: Index<Id>, now: int)
    requires ix.Valid()
    ensures Empties(ix, now) <==> AllAbsorbed(ix, now)
  {
    if AllAbsorbed(ix, now) {
      EmptiesWhenAbsorbed(ix, now);
      var n: nat := |ix.queue|;
      assert EmptiesWithin(ix, now, n);
    } else {
      forall n: nat ensures !EmptiesWithin(ix, now, n) {
        NeverEmpties(ix, now, n);
      }
    }
  }

  lemma FirstIsAbsorbed<Id>(ix: Index<Id>, now: int) returns (p: Index<Id>)
    requires ix.Valid() && ix.queue != []
    ensures p == Pop(ix, now) && p.Valid() && p.queue == ix.queue[1..]
    ensures p.timers == ix.timers[ix.queue[0] := Fired(ix.timers[ix.queue[0]], now)]
    ensures Absorbed(ix, ix.timers[ix.queue[0]], now) ==> Step(ix, now) == p
  {
    var s;
    p, s := StepIs(ix, now);
    var t := ix.timers[ix.queue[0]];
    if t.recurring && Absorbed(ix, t, now) {
      InRest(ix.Keys(), now + Span(t.ms));
      InsertIntoTakenKey(p, ix.queue[0]);
    }
  }

  /** While all are absorbed, a turn only takes the first entry out. */
  lemma AbsorbedTurn<Id>(ix: Index<Id>, now: int) returns (p: Index<Id>)
    requires ix.Valid() && ix.queue != [] && AllAbsorbed(ix, now)
    ensures p == Pop(ix, now) && p == Step(ix, now) && p.Valid() && AllAbsorbed(p, now) && p.queue == ix.queue[1..]
    ensures p.timers == ix.timers[ix.queue[0] := Fired(ix.timers[ix.queue[0]], now)]
  {
    assert ix.queue[0] in ix.queue;
    p := FirstIsAbsorbed(ix, now);
    forall id | id in p.queue ensures Absorbed(p, p.timers[id], now) {
      OthersAbsorbed(ix, now, id, p);
    }
  }

  /** Whether a later entry is absorbed does not depend on the first one. */
  lemma OthersAbsorbed<Id>(ix: Index<Id>, now: int, id: Id, p: Index<Id>)
    requires ix.Valid() && ix.queue != [] && p == Pop(ix, now) && p.Valid() && id in p.queue
    ensures id in ix.queue && id != ix.queue[0] && p.timers[id] == ix.timers[id]
    ensures Absorbed(p, p.timers[id], now) <==> Absorbed(ix, ix.timers[id], now)
  {
    PopMembers(ix, now);
    LaterThanFirst(ix);
    var p' := PopKeepsValid(ix, now);
    if now + Span(ix.timers[id].ms) > ix.timers[id].next {
      InRest(ix.Keys(), now + Span(ix.timers[id].ms));
    }
  }

  lemma {:induction false} EmptiesWhenAbsorbed<Id>(ix: Index<Id>, now: int)
    requires ix.Valid() && AllAbsorbed(ix, now)
    ensures EmptiesWithin(ix, now, |ix.queue|)
    decreases |ix.queue|
  {
    if ix.queue != [] {
      var p := AbsorbedTurn(ix, now);
      EmptiesWhenAbsorbed(p, now);
    }
  }

  /** A timer that comes back has its new deadline for a key, and with that it will always come back. */
  lemma OneStays<Id>(ix: Index<Id>, now: int) returns (s: Index<Id>)
    requires ix.Valid() && !AllAbsorbed(ix, now)
    ensures ix.queue != [] && s == Step(ix, now) && s.Valid() && !AllAbsorbed(s, now)
  {
    var z :| z in ix.queue && !Absorbed(ix, ix.timers[z], now);
    var first := ix.queue[0];
    var p;
    p, s := StepIs(ix, now);
    StepMembers(ix, first, p, s);
    if first in s.queue {
      assert !Absorbed(s, s.timers[first], now);
    } else {
      if z == first {
        NotInRest(ix, first, now);
      }
      assert s == p by { NotInserted(p, first, s); }
      InTail(ix.queue, z);
      OthersAbsorbed(ix, now, z, p);
    }
  }

  lemma NotInRest<Id>(ix: Index<Id>, first: Id, now: int)
    requires ix.Valid() && ix.queue != [] && first == ix.queue[0] && !Absorbed(ix, ix.timers[first], now)
    ensures now + Span(ix.timers[first].ms) !in ix.Keys()[1..]
  {
    var keys := ix.Keys();
    assert forall key :: key in keys[1..] ==> key in keys && key > keys[0];
  }

  lemma NotInserted<Id>(p: Index<Id>, id: Id, s: Index<Id>)
    requires p.Valid() && id in p.timers && id !in s.queue
    requires s == if p.timers[id].recurring then p.Insert(id) else p
    ensures s == p
  {
  }

  lemma {:induction false} NeverEmpties<Id>(ix: Index<Id>, now: int, n: nat)
    requires ix.Valid() && !AllAbsorbed(ix, now)
    ensures !EmptiesWithin(ix, now, n)
    decreases n
  {
    var s := OneStays(ix, now);
    if n > 0 {
      NeverEmpties(s, now, n - 1);
    }
  }

  // ----- the whole loop -----

  /** Every timer of the set fired, and the set empty. */
  function FireAll<Id(==)>(ix: Index<Id>, now: int): Index<Id>
    requires ix.WellFormed()
  {
    Index(map id | id in ix.timers :: if id in ix.queue then Fired(ix.timers[id], now) else ix.timers[id], [])
  }

  /** What the loop does to every timer after a rollover. */
  lemma FireAllInFull<Id>(ix: Index<Id>, now: int, id: Id)
    requires ix.WellFormed() && id in ix.timers
    ensures FireAll(ix, now).queue == [] && id in FireAll(ix, now).timers
    ensures var t, u, armed := ix.timers[id], FireAll(ix, now).timers[id], id in ix.queue;
      && u.recurring == t.recurring && u.ms == t.ms
      && u.cb == (if armed && !t.recurring then None else t.cb)
      && u.next == (if armed && t.recurring then now + 1_000_000 * t.ms else t.next)
  {
  }

  /** Where the loop is after collecting `cbs`, having started with `ix`. */
  ghost predicate RolloverProgress<Id>(ix: Index<Id>, now: int, cur: Index<Id>, cbs: seq<Option<Callback>>)
    requires ix.Valid()
  {
    && cur.Valid() && AllAbsorbed(cur, now)
    && |cbs| <= |ix.queue| && ix.queue[|cbs|..] == cur.queue
    && FireAll(cur, now) == FireAll(ix, now)
    && (forall id :: id in cur.queue ==> id in ix.timers && cur.timers[id] == ix.timers[id])
    && (forall i :: 0 <= i < |cbs| ==> cbs[i] == ix.timers[ix.queue[i]].cb)
  }

  lemma RolloverProgressStep<Id>(ix: Index<Id>, now: int, cur: Index<Id>, cbs: seq<Option<Callback>>)
    returns (p: Index<Id>)
    requires ix.Valid() && RolloverProgress(ix, now, cur, cbs) && cur.queue != []
    ensures p == Step(cur, now) && RolloverProgress(ix, now, p, cbs + [cur.timers[cur.queue[0]].cb])
    ensures |p.queue| < |cur.queue|
  {
    p := AbsorbedTurn(cur, now);
    OneMoreDue(ix.queue, |cbs|, cur.queue[0], p.queue);
    PopMembers(cur, now);
    assert FireAll(p, now) == FireAll(cur, now);
  }

  lemma RolloverProgressStart<Id>(ix: Index<Id>, now: int)
    requires ix.Valid() && AllAbsorbed(ix, now)
    ensures RolloverProgress(ix, now, ix, [])
  {
  }

  lemma RolloverProgressEnd<Id>(ix: Index<Id>, now: int, cur: Index<Id>, cbs: seq<Option<Callback>>)
    requires ix.Valid() && RolloverProgress(ix, now, cur, cbs) && cur.queue == []
    ensures cur == FireAll(ix, now) && |cbs| == |ix.queue|
    ensures forall i :: 0 <= i < |cbs| ==> cbs[i] == ix.timers[ix.queue[i]].cb
  {
    assert cur == FireAll(cur, now);
  }
}
