/** Taking out the expired timers: the draining loop, when it ends, and what it leaves behind. */
module TimerExpiry {
  import opened Options
  import opened TimerIndex

  predicate Due<Id(==)>(ix: Index<Id>, now: int)
    requires ix.WellFormed()
  {
    ix.queue != [] && ix.Keys()[0] <= now
  }

  function DueCount<Id(==)>(ix: Index<Id>, now: int): (d: nat)
    requires ix.WellFormed()
    ensures d <= |ix.queue|
  {
    Rank(ix.Keys(), now + 1)
  }

  function DueIds<Id(==)>(ix: Index<Id>, now: int): seq<Id>
    requires ix.WellFormed()
  {
    ix.queue[..DueCount(ix, now)]
  }

  /** What expiry does to a timer: a recurring one starts its next period, a one-shot one loses its callback. */
  function Fired(t: Timer, now: int): Timer {
    if t.recurring then t.(next := now + Span(t.ms)) else t.(cb := None)
  }

  /** Takes the first entry out and fires its timer. */
  function Pop<Id(==)>(ix: Index<Id>, now: int): Index<Id>
    requires ix.queue != [] && ix.WellFormed()
  {
    Index(ix.timers[ix.queue[0] := Fired(ix.timers[ix.queue[0]], now)], ix.queue[1..])
  }

  /** One turn of the loop. */
  function Step<Id(==)>(ix: Index<Id>, now: int): Index<Id>
    requires ix.WellFormed() && ix.queue != []
  {
    if ix.timers[ix.queue[0]].recurring then Pop(ix, now).Insert(ix.queue[0]) else Pop(ix, now)
  }

  predicate ZeroPeriod(t: Timer) { t.recurring && t.ms == 0 }

  ghost predicate OnlyZeroPeriodsAt<Id>(ix: Index<Id>, now: int)
    requires ix.WellFormed()
  {
    forall id :: id in ix.queue && ix.timers[id].next == now ==> ZeroPeriod(ix.timers[id])
  }

  /** A zero-period timer is due, and no other kind of entry sits at `now` to absorb its reinsertion. */
  ghost predicate Stuck<Id>(ix: Index<Id>, now: int)
    requires ix.WellFormed()
  {
    && (exists id :: id in ix.queue && ix.timers[id].next <= now && ZeroPeriod(ix.timers[id]))
    && OnlyZeroPeriodsAt(ix, now)
  }

  lemma DueIsAPrefix<Id>(ix: Index<Id>, now: int)
    requires ix.Valid()
    ensures forall i :: 0 <= i < |ix.queue| ==> (ix.Keys()[i] <= now <==> i < DueCount(ix, now))
    ensures Due(ix, now) <==> DueCount(ix, now) > 0
  {
  }

  lemma PopMembers<Id>(ix: Index<Id>, now: int)
    requires ix.Valid() && ix.queue != []
    ensures ix.queue[0] !in Pop(ix, now).queue
    ensures forall id :: id in ix.queue <==> id == ix.queue[0] || id in Pop(ix, now).queue
    ensures forall id :: id in Pop(ix, now).queue ==> id in ix.timers && Pop(ix, now).timers[id] == ix.timers[id]
  {
    var q := ix.queue[1..];
    assert ix.queue == [ix.queue[0]] + q;
    forall j | 0 <= j < |q| ensures q[j] != ix.queue[0] {
      assert ix.Keys()[j + 1] != ix.Keys()[0];
    }
  }

  lemma PopKeepsValid<Id>(ix: Index<Id>, now: int) returns (p: Index<Id>)
    requires ix.Valid() && ix.queue != []
    ensures p == Pop(ix, now) && p.Valid() && p.Keys() == ix.Keys()[1..]
    ensures p.queue == ix.queue[1..] && ix.queue[0] !in p.queue
    ensures p.timers == ix.timers[ix.queue[0] := Fired(ix.timers[ix.queue[0]], now)]
    ensures forall id :: id in ix.queue <==> id == ix.queue[0] || id in p.queue
  {
    PopMembers(ix, now);
    p := Pop(ix, now);
    assert p.WellFormed();
    assert p.Keys() == ix.Keys()[1..];
  }

  lemma RankAfterInsert(keys: seq<int>, key: int, i: nat, limit: int)
    requires Ascending(keys) && i <= |keys| && limit <= key
    requires (i > 0 ==> keys[i - 1] < key) && (i < |keys| ==> keys[i] > key)
    ensures Rank(keys, limit) <= i && Rank(keys[..i] + [key] + keys[i..], limit) == Rank(keys, limit)
  {
    InsertAscending(keys, key, i);
    RankIs(keys[..i] + [key] + keys[i..], limit, Rank(keys, limit));
  }

  lemma TakeOfInsert<T>(q: seq<T>, x: T, i: nat, d: nat)
    requires d <= i <= |q|
    ensures (q[..i] + [x] + q[i..])[..d] == q[..d]
  {
  }

  /** A key behind the due ones, put in or not, changes nothing about them. */
  lemma InsertLater<Id>(ix: Index<Id>, id: Id, now: int, r: Index<Id>)
    requires ix.Valid() && id in ix.timers && ix.timers[id].next > now && r == ix.Insert(id)
    ensures r.WellFormed() && DueCount(r, now) == DueCount(ix, now) && DueIds(r, now) == DueIds(ix, now)
  {
    var i := Rank(ix.Keys(), ix.timers[id].next);
    if i == |ix.queue| || ix.Keys()[i] != ix.timers[id].next {
      assert r == ix.(queue := ix.queue[..i] + [id] + ix.queue[i..]);
      InsertedLater(ix, id, now, i, r);
    } else {
      assert r == ix;
    }
  }

  lemma InsertedLater<Id>(ix: Index<Id>, id: Id, now: int, i: nat, r: Index<Id>)
    requires ix.Valid() && id in ix.timers && ix.timers[id].next > now && i <= |ix.queue|
    requires r == ix.(queue := ix.queue[..i] + [id] + ix.queue[i..])
    requires i > 0 ==> ix.Keys()[i - 1] < ix.timers[id].next
    requires i < |ix.queue| ==> ix.Keys()[i] > ix.timers[id].next
    ensures r.WellFormed() && DueCount(r, now) == DueCount(ix, now) && DueIds(r, now) == DueIds(ix, now)
  {
    InsertedKeys(ix, id, i, r);
    RankAfterInsert(ix.Keys(), ix.timers[id].next, i, now + 1);
    TakeOfInsert(ix.queue, id, i, Rank(ix.Keys(), now + 1));
  }

  /** A turn, with the index it goes through. */
  lemma StepIs<Id>(ix: Index<Id>, now: int) returns (p: Index<Id>, s: Index<Id>)
    requires ix.Valid() && ix.queue != []
    ensures p == Pop(ix, now) && p.Valid() && p.Keys() == ix.Keys()[1..]
    ensures p.queue == ix.queue[1..] && ix.queue[0] !in p.queue
    ensures p.timers == ix.timers[ix.queue[0] := Fired(ix.timers[ix.queue[0]], now)]
    ensures s == Step(ix, now) && s.Valid() && s.timers == p.timers
    ensures s == if ix.timers[ix.queue[0]].recurring then p.Insert(ix.queue[0]) else p
  {
    p := PopKeepsValid(ix, now);
    s := p;
    if ix.timers[ix.queue[0]].recurring {
      InsertKeepsValid(p, ix.queue[0]);
      s := p.Insert(ix.queue[0]);
    }
  }

  /** Who is in the set after a turn, and which keys it has. */
  lemma StepMembers<Id>(ix: Index<Id>, first: Id, p: Index<Id>, s: Index<Id>)
    requires ix.queue != [] && first == ix.queue[0] && p.Valid() && p.queue == ix.queue[1..] && first !in p.queue
    requires first in p.timers && s == if p.timers[first].recurring then p.Insert(first) else p
    ensures s.WellFormed()
    ensures forall id :: id != first ==> (id in s.queue <==> id in ix.queue)
    ensures first in s.queue <==> p.timers[first].recurring && p.timers[first].next !in p.Keys()
    ensures forall key :: key in s.Keys() <==>
      key in p.Keys() || (p.timers[first].recurring && key == p.timers[first].next)
  {
    assert ix.queue == [first] + p.queue;
    if p.timers[first].recurring {
      InsertKeepsValid(p, first);
    }
  }

  // ----- the loop ends exactly when it is not stuck -----

  lemma StuckStaysStuck<Id>(ix: Index<Id>, now: int) returns (s: Index<Id>)
    requires ix.Valid() && Stuck(ix, now)
    ensures Due(ix, now) && s == Step(ix, now) && s.Valid() && Stuck(s, now)
  {
    StuckIsDue(ix, now);
    var p;
    p, s := StepIs(ix, now);
    StepMembers(ix, ix.queue[0], p, s);
    StuckAfter(ix, now, ix.queue[0], s);
  }

  lemma StuckAfter<Id>(ix: Index<Id>, now: int, first: Id, s: Index<Id>)
    requires ix.Valid() && Stuck(ix, now) && s.Valid() && first in ix.queue
    requires s.timers == ix.timers[first := Fired(ix.timers[first], now)]
    requires forall id :: id != first ==> (id in s.queue <==> id in ix.queue)
    requires first in s.queue ==> ix.timers[first].recurring
    requires ZeroPeriod(ix.timers[first]) ==> now in s.Keys()
    ensures Stuck(s, now)
  {
    var z :| z in ix.queue && ix.timers[z].next <= now && ZeroPeriod(ix.timers[z]);
    assert OnlyZeroPeriodsAt(s, now);
    if z in s.queue {
      assert s.timers[z].next <= now && ZeroPeriod(s.timers[z]);
    } else {
      var e := EntryOfKey(s, now);
      assert ZeroPeriod(s.timers[e]);
    }
  }

  lemma EntryOfKey<Id>(ix: Index<Id>, key: int) returns (e: Id)
    requires ix.Valid() && key in ix.Keys()
    ensures e in ix.queue && ix.timers[e].next == key
  {
    var j :| 0 <= j < |ix.Keys()| && ix.Keys()[j] == key;
    e := ix.queue[j];
  }

  lemma KeyOfEntry<Id>(ix: Index<Id>, e: Id)
    requires ix.Valid() && e in ix.queue
    ensures ix.timers[e].next in ix.Keys()
  {
    var j :| 0 <= j < |ix.queue| && ix.queue[j] == e;
    assert ix.Keys()[j] == ix.timers[e].next;
  }

  predicate Renews(t: Timer) { t.recurring && t.ms > 0 }

  predicate RenewsTo(t: Timer, now: int, key: int) { Renews(t) && key == now + Span(t.ms) }

  /** Otherwise each turn takes away one due entry and leaves the other due ones in order. */
  lemma StepShrinks<Id>(ix: Index<Id>, now: int) returns (s: Index<Id>)
    requires ix.Valid() && Due(ix, now) && !Stuck(ix, now)
    ensures s == Step(ix, now) && s.Valid() && !Stuck(s, now)
    ensures DueCount(s, now) == DueCount(ix, now) - 1
    ensures DueIds(ix, now) == [ix.queue[0]] + DueIds(s, now) && ix.queue[0] !in DueIds(s, now)
    ensures s.timers == ix.timers[ix.queue[0] := Fired(ix.timers[ix.queue[0]], now)]
  {
    var p;
    p, s := StepIs(ix, now);
    DueAfterPop(ix, now, p);
    DueAfterInsert(ix, now, p, s);
    assert !Stuck(s, now) by {
      StepMembers(ix, ix.queue[0], p, s);
      ZeroPeriodIsAbsorbed(ix, now, p);
      NotStuckAfter(ix, now, s);
    }
  }

  lemma RankOfRest(keys: seq<int>, key: int)
    requires keys != [] && keys[0] < key
    ensures Rank(keys, key) == 1 + Rank(keys[1..], key)
  {
  }

  lemma DueAfterPop<Id>(ix: Index<Id>, now: int, p: Index<Id>)
    requires ix.Valid() && Due(ix, now) && p.Valid() && p.queue == ix.queue[1..] && p.Keys() == ix.Keys()[1..]
    requires ix.queue[0] !in p.queue
    ensures DueCount(p, now) == DueCount(ix, now) - 1
    ensures DueIds(ix, now) == [ix.queue[0]] + DueIds(p, now) && ix.queue[0] !in DueIds(p, now)
  {
    RankOfRest(ix.Keys(), now + 1);
    TakeOfRest(ix.queue, DueCount(ix, now));
  }

  lemma TakeOfRest<T>(q: seq<T>, d: nat)
    requires 0 < d <= |q|
    ensures q[..d] == [q[0]] + q[1..][..d - 1]
  {
  }

  lemma DueAfterInsert<Id>(ix: Index<Id>, now: int, p: Index<Id>, s: Index<Id>)
    requires ix.Valid() && Due(ix, now) && !Stuck(ix, now)
    requires p.Valid() && p.queue == ix.queue[1..] && ix.queue[0] !in p.queue
    requires p.timers == ix.timers[ix.queue[0] := Fired(ix.timers[ix.queue[0]], now)]
    requires s.Valid() && s == if ix.timers[ix.queue[0]].recurring then p.Insert(ix.queue[0]) else p
    ensures DueCount(s, now) == DueCount(p, now) && DueIds(s, now) == DueIds(p, now)
  {
    if Renews(ix.timers[ix.queue[0]]) {
      InsertLater(p, ix.queue[0], now, s);
    } else {
      ZeroPeriodIsAbsorbed(ix, now, p);
      if ix.timers[ix.queue[0]].recurring {
        InsertIntoTakenKey(p, ix.queue[0]);
      }
    }
  }

  /** Who is in the set after a turn of such a loop, and which keys it has. */
  lemma StepRenews<Id>(ix: Index<Id>, now: int, first: Id, s: Index<Id>)
    requires ix.Valid() && Due(ix, now) && !Stuck(ix, now) && first == ix.queue[0] && s == Step(ix, now)
    ensures s.Valid() && s.timers == ix.timers[first := Fired(ix.timers[first], now)]
    ensures forall id :: id != first ==> (id in s.queue <==> id in ix.queue)
    ensures first in s.queue <==>
      Renews(ix.timers[first]) && now + Span(ix.timers[first].ms) !in ix.Keys()[1..]
    ensures forall key :: key in s.Keys() <==>
      key in ix.Keys()[1..] || (Renews(ix.timers[first]) && key == now + Span(ix.timers[first].ms))
  {
    var p, s' := StepIs(ix, now);
    StepMembers(ix, first, p, s);
    ZeroPeriodIsAbsorbed(ix, now, p);
  }

  lemma Absorber<Id>(ix: Index<Id>, now: int, first: Id) returns (b: Id)
    requires ix.Valid() && Due(ix, now) && !Stuck(ix, now) && first == ix.queue[0] && ZeroPeriod(ix.timers[first])
    ensures b in ix.queue && b != first && ix.timers[b].next == now
  {
    assert first in ix.queue && ix.timers[first].next <= now;
    b :| b in ix.queue && ix.timers[b].next == now && !ZeroPeriod(ix.timers[b]);
  }

  /** A zero-period timer that is due finds an entry of another kind at `now`, behind itself. */
  lemma ZeroPeriodIsAbsorbed<Id>(ix: Index<Id>, now: int, p: Index<Id>)
    requires ix.Valid() && Due(ix, now) && !Stuck(ix, now) && p.Valid() && p.queue == ix.queue[1..]
    requires p.timers == ix.timers[ix.queue[0] := Fired(ix.timers[ix.queue[0]], now)]
    ensures ZeroPeriod(ix.timers[ix.queue[0]]) ==> now in p.Keys()
  {
    if ZeroPeriod(ix.timers[ix.queue[0]]) {
      var b := Absorber(ix, now, ix.queue[0]);
      InTail(ix.queue, b);
      KeyOfEntry(p, b);
    }
  }

  lemma InTail<T>(q: seq<T>, x: T)
    requires q != [] && x in q && x != q[0]
    ensures x in q[1..]
  {
    assert q == [q[0]] + q[1..];
  }

  lemma InsertIntoTakenKey<Id>(ix: Index<Id>, id: Id)
    requires ix.Valid() && id in ix.timers && ix.timers[id].next in ix.Keys()
    ensures ix.Insert(id) == ix
  {
    FindIsExact(ix, ix.timers[id].next);
  }

  lemma NotStuckAfter<Id>(ix: Index<Id>, now: int, s: Index<Id>)
    requires ix.Valid() && Due(ix, now) && !Stuck(ix, now) && s.WellFormed()
    requires s.timers == ix.timers[ix.queue[0] := Fired(ix.timers[ix.queue[0]], now)]
    requires forall id :: id != ix.queue[0] ==> (id in s.queue <==> id in ix.queue)
    requires ix.queue[0] in s.queue ==> Renews(ix.timers[ix.queue[0]])
    ensures !Stuck(s, now)
  {
    if b :| b in ix.queue && ix.timers[b].next == now && !ZeroPeriod(ix.timers[b]) {
      if b == ix.queue[0] {
        LaterThanFirst(ix);
      } else {
        assert b in s.queue && s.timers[b] == ix.timers[b];
      }
    }
  }

  lemma LaterThanFirst<Id>(ix: Index<Id>)
    requires ix.Valid() && ix.queue != []
    ensures forall id :: id in ix.queue && id != ix.queue[0] ==> ix.timers[id].next > ix.timers[ix.queue[0]].next
  {
    forall id | id in ix.queue && id != ix.queue[0] ensures ix.timers[id].next > ix.timers[ix.queue[0]].next {
      var j :| 0 <= j < |ix.queue| && ix.queue[j] == id;
      assert ix.Keys()[0] < ix.Keys()[j];
    }
  }

  /** The loop, started with `ix`, ends after at most `n` turns. */
  ghost predicate EndsWithin<Id>(ix: Index<Id>, now: int, n: nat)
    requires ix.Valid()
    decreases n
  {
    !Due(ix, now) || (n > 0 && Step(ix, now).Valid() && EndsWithin(Step(ix, now), now, n - 1))
  }

  ghost predicate Ends<Id>(ix: Index<Id>, now: int)
    requires ix.Valid()
  {
    exists n: nat :: EndsWithin(ix, now, n)
  }

  /** The draining loop ends if and only if it does not start stuck. */
  lemma LoopEndsExactlyWhenNotStuck<Id>(ix: Index<Id>, now: int)
    requires ix.Valid()
    ensures Ends(ix, now) <==> !Stuck(ix, now)
  {
    if Stuck(ix, now) {
      forall n: nat ensures !EndsWithin(ix, now, n) {
        StuckForEver(ix, now, n);
      }
    } else {
      EndsAfterTheDueOnes(ix, now);
      var n: nat := DueCount(ix, now);
      assert EndsWithin(ix, now, n);
    }
  }

  lemma StuckIsDue<Id>(ix: Index<Id>, now: int)
    requires ix.Valid() && Stuck(ix, now)
    ensures Due(ix, now)
  {
    var z :| z in ix.queue && ix.timers[z].next <= now && ZeroPeriod(ix.timers[z]);
    var j :| 0 <= j < |ix.queue| && ix.queue[j] == z;
    assert ix.Keys()[0] <= ix.Keys()[j];
  }

  lemma {:induction false} StuckForEver<Id>(ix: Index<Id>, now: int, n: nat)
    requires ix.Valid() && Stuck(ix, now)
    ensures !EndsWithin(ix, now, n)
    decreases n
  {
    StuckIsDue(ix, now);
    if n > 0 {
      var s := StuckStaysStuck(ix, now);
      StuckForEver(s, now, n - 1);
    }
  }

  lemma {:induction false} EndsAfterTheDueOnes<Id>(ix: Index<Id>, now: int)
    requires ix.Valid() && !Stuck(ix, now)
    ensures EndsWithin(ix, now, DueCount(ix, now))
    decreases DueCount(ix, now)
  {
    DueIsAPrefix(ix, now);
    if Due(ix, now) {
      var s := StepShrinks(ix, now);
      EndsAfterTheDueOnes(s, now);
    }
  }

  // ----- the whole loop -----

  lemma StepIsSmaller<Id>(ix: Index<Id>, now: int)
    requires ix.Valid() && Due(ix, now) && !Stuck(ix, now)
    ensures Step(ix, now).Valid() && !Stuck(Step(ix, now), now) && DueCount(Step(ix, now), now) < DueCount(ix, now)
  {
    var s := StepShrinks(ix, now);
  }

  /** The timers in the order in which the loop takes them, and the index it leaves. */
  function Drain<Id(==)>(ix: Index<Id>, now: int): (r: (seq<Id>, Index<Id>))
    requires ix.Valid() && !Stuck(ix, now)
    decreases DueCount(ix, now)
  {
    if !Due(ix, now) then ([], ix)
    else
      StepIsSmaller(ix, now);
      var r := Drain(Step(ix, now), now);
      ([ix.queue[0]] + r.0, r.1)
  }

  /** Exactly the entries due on entry are taken, each once and in deadline order, and nothing is left due. */
  lemma {:induction false} DrainTakesTheDueOnes<Id>(ix: Index<Id>, now: int)
    requires ix.Valid() && !Stuck(ix, now)
    ensures Drain(ix, now).0 == DueIds(ix, now)
    ensures Drain(ix, now).1.Valid() && !Due(Drain(ix, now).1, now)
    decreases DueCount(ix, now)
  {
    if Due(ix, now) {
      var s := StepShrinks(ix, now);
      DrainTakesTheDueOnes(s, now);
    } else {
      DueIsAPrefix(ix, now);
    }
  }

  lemma {:induction false} DrainKeepsTimerSet<Id>(ix: Index<Id>, now: int)
    requires ix.Valid() && !Stuck(ix, now)
    ensures Drain(ix, now).1.timers.Keys == ix.timers.Keys
    decreases DueCount(ix, now)
  {
    if Due(ix, now) {
      var s := StepShrinks(ix, now);
      DrainKeepsTimerSet(s, now);
    }
  }

  /** Every timer taken is renewed or spent, no other timer changes. */
  lemma {:induction false} DrainFiresTimers<Id>(ix: Index<Id>, now: int, id: Id)
    requires ix.Valid() && !Stuck(ix, now) && id in ix.timers
    ensures id in Drain(ix, now).1.timers
    ensures Drain(ix, now).1.timers[id] == if id in DueIds(ix, now) then Fired(ix.timers[id], now) else ix.timers[id]
    decreases DueCount(ix, now)
  {
    if Due(ix, now) {
      var s := StepShrinks(ix, now);
      DrainFiresTimers(s, now, id);
    } else {
      DueIsAPrefix(ix, now);
    }
  }

  lemma DueIdsAre<Id>(ix: Index<Id>, now: int, id: Id)
    requires ix.Valid()
    ensures id in DueIds(ix, now) <==> id in ix.queue && ix.timers[id].next <= now
  {
    DueIsAPrefix(ix, now);
    if id in ix.queue {
      var j :| 0 <= j < |ix.queue| && ix.queue[j] == id;
      assert ix.Keys()[j] == ix.timers[id].next;
      if j < DueCount(ix, now) {
        assert DueIds(ix, now)[j] == id;
      }
    }
  }

  /** What a call of the loop does to every timer. A recurring one keeps its callback; a one-shot one that was due loses
      it; kind and period never change, and the deadline only of a recurring timer that was due. */
  lemma DrainInFull<Id>(ix: Index<Id>, now: int, id: Id) returns (u: Timer)
    requires ix.Valid() && !Stuck(ix, now) && id in ix.timers
    ensures id in Drain(ix, now).1.timers && u == Drain(ix, now).1.timers[id]
    ensures var t, due := ix.timers[id], id in ix.queue && ix.timers[id].next <= now;
      && u.recurring == t.recurring && u.ms == t.ms
      && u.cb == (if due && !t.recurring then None else t.cb)
      && u.next == (if due && t.recurring then now + 1_000_000 * t.ms else t.next)
  {
    DrainFiresTimers(ix, now, id);
    DueIdsAre(ix, now, id);
    u := Drain(ix, now).1.timers[id];
  }

  lemma InRest(keys: seq<int>, key: int)
    requires keys != [] && key > keys[0]
    ensures key in keys <==> key in keys[1..]
  {
    assert keys == [keys[0]] + keys[1..];
  }

  ghost predicate RenewedTo<Id>(ix: Index<Id>, ids: seq<Id>, now: int, key: int)
    requires forall id :: id in ids ==> id in ix.timers
  {
    exists id :: id in ids && RenewsTo(ix.timers[id], now, key)
  }

  ghost predicate KeyToBeLeft<Id>(ix: Index<Id>, now: int, key: int)
    requires ix.WellFormed()
  {
    (key in ix.Keys() && key > now) || RenewedTo(ix, DueIds(ix, now), now, key)
  }

  /** The keys left: the later ones, and one new deadline for each renewed timer. */
  lemma {:induction false} DrainLeavesTheLaterKeys<Id>(ix: Index<Id>, now: int, key: int)
    requires ix.Valid() && !Stuck(ix, now)
    ensures Drain(ix, now).1.WellFormed()
    ensures key in Drain(ix, now).1.Keys() <==> KeyToBeLeft(ix, now, key)
    decreases DueCount(ix, now)
  {
    if Due(ix, now) {
      var s := StepShrinks(ix, now);
      DrainLeavesTheLaterKeys(s, now, key);
      KeysAfterStep(ix, now, key, ix.queue[0], s);
    } else {
      DueIsAPrefix(ix, now);
    }
  }

  lemma KeysAfterStep<Id>(ix: Index<Id>, now: int, key: int, first: Id, s: Index<Id>)
    requires ix.Valid() && Due(ix, now) && !Stuck(ix, now) && s == Step(ix, now) && s.Valid() && first == ix.queue[0]
    requires s.timers == ix.timers[first := Fired(ix.timers[first], now)]
    requires DueIds(ix, now) == [first] + DueIds(s, now) && first !in DueIds(s, now)
    ensures KeyToBeLeft(s, now, key) <==> KeyToBeLeft(ix, now, key)
  {
    assert key > now ==> (key in s.Keys() <==> key in ix.Keys() || RenewsTo(ix.timers[first], now, key)) by {
      if key > now {
        StepRenews(ix, now, first, s);
        InRest(ix.Keys(), key);
      }
    }
    RenewedLater(ix, s, first, DueIds(s, now), now, key);
  }

  lemma RenewedLater<Id>(ix: Index<Id>, s: Index<Id>, first: Id, ids: seq<Id>, now: int, key: int)
    requires first in ix.timers && first !in ids && forall id :: id in ids ==> id in ix.timers
    requires s.timers == ix.timers[first := Fired(ix.timers[first], now)]
    ensures RenewedTo(ix, [first] + ids, now, key) <==>
      RenewedTo(s, ids, now, key) || RenewsTo(ix.timers[first], now, key)
  {
    assert forall id :: id in [first] + ids <==> id == first || id in ids;
  }

  ghost predicate EarlierWithPeriod<Id>(ix: Index<Id>, next: int, ms: nat)
    requires ix.WellFormed()
  {
    exists id :: id in ix.queue && ix.timers[id].next < next && Renews(ix.timers[id]) && ix.timers[id].ms == ms
  }

  /** The timer is renewed and its new deadline is free: no later entry has it, and no timer renewed before it in the
      same call has the same period. */
  ghost predicate StaysArmed<Id>(ix: Index<Id>, t: Timer, now: int)
    requires ix.WellFormed()
  {
    Renews(t) && now + Span(t.ms) !in ix.Keys() && !EarlierWithPeriod(ix, t.next, t.ms)
  }

  ghost predicate ToBeArmed<Id>(ix: Index<Id>, id: Id, now: int)
    requires ix.WellFormed() && id in ix.timers
  {
    id in ix.queue && (ix.timers[id].next > now || StaysArmed(ix, ix.timers[id], now))
  }

  /** The timers left armed: the later ones, and those renewed to a free deadline. The others silently leave the set,
      a recurring one with its callback still in place. */
  lemma {:induction false} DrainLeavesArmed<Id>(ix: Index<Id>, now: int, id: Id)
    requires ix.Valid() && !Stuck(ix, now) && id in ix.timers
    ensures id in Drain(ix, now).1.queue <==> ToBeArmed(ix, id, now)
    decreases DueCount(ix, now)
  {
    if Due(ix, now) {
      var s := StepShrinks(ix, now);
      DrainLeavesArmed(s, now, id);
      ArmedAfterStep(ix, now, id, s);
    } else if id in ix.queue {
      KeyOfEntry(ix, id);
      DueIsAPrefix(ix, now);
    }
  }

  lemma ArmedAfterStep<Id>(ix: Index<Id>, now: int, id: Id, s: Index<Id>)
    requires ix.Valid() && Due(ix, now) && !Stuck(ix, now) && id in ix.timers
    requires s == Step(ix, now) && s.WellFormed() && id in s.timers
    ensures ToBeArmed(s, id, now) <==> ToBeArmed(ix, id, now)
  {
    var first := ix.queue[0];
    StepRenews(ix, now, first, s);
    if id == first {
      FirstStaysArmed(ix, first, now);
    } else if id in ix.queue && ix.timers[id].next <= now {
      LaterThanFirst(ix);
      OthersStayArmed(ix, first, ix.timers[id], now, s);
    }
  }

  lemma FirstStaysArmed<Id>(ix: Index<Id>, first: Id, now: int)
    requires ix.Valid() && Due(ix, now) && first == ix.queue[0]
    ensures StaysArmed(ix, ix.timers[first], now) <==>
      Renews(ix.timers[first]) && now + Span(ix.timers[first].ms) !in ix.Keys()[1..]
  {
    if Renews(ix.timers[first]) {
      InRest(ix.Keys(), now + Span(ix.timers[first].ms));
    }
    LaterThanFirst(ix);
  }

  lemma OthersStayArmed<Id>(ix: Index<Id>, first: Id, t: Timer, now: int, s: Index<Id>)
    requires ix.Valid() && Due(ix, now) && first == ix.queue[0] && ix.timers[first].next < t.next <= now
    requires s.WellFormed() && s.timers == ix.timers[first := Fired(ix.timers[first], now)]
    requires forall id :: id != first ==> (id in s.queue <==> id in ix.queue)
    requires first in s.queue ==> Renews(ix.timers[first])
    requires now + Span(t.ms) in s.Keys() <==>
      now + Span(t.ms) in ix.Keys()[1..] || RenewsTo(ix.timers[first], now, now + Span(t.ms))
    ensures StaysArmed(s, t, now) <==> StaysArmed(ix, t, now)
  {
    InRest(ix.Keys(), now + Span(t.ms));
    EarlierAfterStep(ix, first, t, now, s);
  }

  lemma EarlierAfterStep<Id>(ix: Index<Id>, first: Id, t: Timer, now: int, s: Index<Id>)
    requires ix.WellFormed() && first in ix.queue && ix.timers[first].next < t.next <= now
    requires s.WellFormed() && s.timers == ix.timers[first := Fired(ix.timers[first], now)]
    requires forall id :: id != first ==> (id in s.queue <==> id in ix.queue)
    requires first in s.queue ==> Renews(ix.timers[first])
    ensures EarlierWithPeriod(ix, t.next, t.ms) <==>
      EarlierWithPeriod(s, t.next, t.ms) || (Renews(ix.timers[first]) && ix.timers[first].ms == t.ms)
  {
  }

  /** Where the loop is after collecting `cbs`, having started with `ix`. */
  ghost predicate Progress<Id>(ix: Index<Id>, now: int, cur: Index<Id>, cbs: seq<Option<Callback>>)
    requires ix.Valid() && !Stuck(ix, now)
  {
    && cur.Valid() && !Stuck(cur, now)
    && Drain(cur, now).1 == Drain(ix, now).1
    && |cbs| <= |DueIds(ix, now)| && DueIds(ix, now)[|cbs|..] == DueIds(cur, now)
    && (forall id :: id in DueIds(cur, now) ==> id in ix.timers && cur.timers[id] == ix.timers[id])
    && (forall i :: 0 <= i < |cbs| ==> cbs[i] == ix.timers[DueIds(ix, now)[i]].cb)
  }

  lemma ProgressStep<Id>(ix: Index<Id>, now: int, cur: Index<Id>, cbs: seq<Option<Callback>>) returns (s: Index<Id>)
    requires ix.Valid() && !Stuck(ix, now) && Progress(ix, now, cur, cbs) && Due(cur, now)
    ensures s == Step(cur, now) && Progress(ix, now, s, cbs + [cur.timers[cur.queue[0]].cb])
    ensures DueCount(s, now) < DueCount(cur, now)
  {
    s := StepShrinks(cur, now);
    assert Drain(s, now).1 == Drain(cur, now).1;
    OneMoreDue(DueIds(ix, now), |cbs|, cur.queue[0], DueIds(s, now));
  }

  lemma OneMoreDue<T>(ids: seq<T>, n: nat, first: T, rest: seq<T>)
    requires n <= |ids| && ids[n..] == [first] + rest
    ensures n < |ids| && ids[n] == first && ids[n + 1..] == rest
  {
    assert ids[n + 1..] == ids[n..][1..];
  }

  lemma ProgressStart<Id>(ix: Index<Id>, now: int)
    requires ix.Valid() && !Stuck(ix, now)
    ensures Progress(ix, now, ix, [])
  {
  }

  lemma ProgressEnd<Id>(ix: Index<Id>, now: int, cur: Index<Id>, cbs: seq<Option<Callback>>)
    requires ix.Valid() && !Stuck(ix, now) && Progress(ix, now, cur, cbs) && !Due(cur, now)
    ensures cur == Drain(ix, now).1 && |cbs| == |DueIds(ix, now)|
    ensures forall i :: 0 <= i < |cbs| ==> cbs[i] == ix.timers[DueIds(ix, now)[i]].cb
  {
    DueIsAPrefix(cur, now);
  }
}
