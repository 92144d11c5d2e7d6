/** The timer index as a value: every timer, and the ordered set of the armed ones, keyed by their deadline.
    `Id` is whatever names a timer; the class of the timer manager uses object references. */
module TimerIndex {
  import opened Options

  datatype Callback = Callback(task: nat)

  /** Deadlines are counted in nanoseconds, periods in milliseconds. */
  const NANOS_PER_MS := 1000000

  function Span(ms: nat): nat { NANOS_PER_MS * ms }

  datatype Timer = Timer(recurring: bool, ms: nat, next: int, cb: Option<Callback>)

  /** `queue` is the ordered set: one timer a deadline, earliest first. */
  datatype Index<Id(==)> = Index(timers: map<Id, Timer>, queue: seq<Id>) {

    ghost predicate WellFormed() { forall id :: id in queue ==> id in timers }

    function Keys(): (keys: seq<int>)
      requires WellFormed()
      ensures |keys| == |queue| && forall i :: 0 <= i < |queue| ==> keys[i] == timers[queue[i]].next
    {
      seq(|queue|, i requires 0 <= i < |queue| => timers[queue[i]].next)
    }

    ghost predicate Valid() { WellFormed() && Ascending(Keys()) }

    function Put(id: Id, t: Timer): Index<Id> { this.(timers := timers[id := t]) }

    function Erase(i: nat): Index<Id>
      requires i < |queue|
    {
      this.(queue := queue[..i] + queue[i + 1..])
    }

    /** `std::set::insert`: an entry with an equal key keeps its place and the new one is dropped. */
    function Insert(id: Id): Index<Id>
      requires WellFormed() && id in timers
    {
      var i := Rank(Keys(), timers[id].next);
      if i < |queue| && Keys()[i] == timers[id].next then this
      else this.(queue := queue[..i] + [id] + queue[i..])
    }

    /** `std::set::find`: the entry with an equal key, whichever timer it belongs to. */
    function Find(key: int): (r: Option<nat>)
      requires WellFormed()
      ensures r.Some? ==> r.value < |queue| && Keys()[r.value] == key
    {
      var i := Rank(Keys(), key);
      if i < |queue| && Keys()[i] == key then Some(i) else None
    }
  }

  ghost predicate Ascending(keys: seq<int>) { forall i, j :: 0 <= i < j < |keys| ==> keys[i] < keys[j] }

  /** The number of leading keys below `key`: where a search for it ends. */
  function Rank(keys: seq<int>, key: int): (n: nat)
    ensures n <= |keys|
    ensures forall i :: 0 <= i < n ==> keys[i] < key
    ensures n < |keys| ==> keys[n] >= key
  {
    if keys == [] || keys[0] >= key then 0 else 1 + Rank(keys[1..], key)
  }

  // ----- the ordered set -----

  lemma RankIs(keys: seq<int>, key: int, n: nat)
    requires Ascending(keys) && n <= |keys|
    requires n > 0 ==> keys[n - 1] < key
    requires n < |keys| ==> keys[n] >= key
    ensures Rank(keys, key) == n
  {
  }

  lemma SameKeySameTimer<Id>(ix: Index<Id>, a: Id, b: Id)
    requires ix.Valid() && a in ix.queue && b in ix.queue && ix.timers[a].next == ix.timers[b].next
    ensures a == b
  {
    var i :| 0 <= i < |ix.queue| && ix.queue[i] == a;
    var j :| 0 <= j < |ix.queue| && ix.queue[j] == b;
    assert ix.Keys()[i] == ix.Keys()[j];
  }

  lemma EraseKeepsValid<Id>(ix: Index<Id>, i: nat)
    requires ix.Valid() && i < |ix.queue|
    ensures ix.Erase(i).Valid() && ix.Erase(i).Keys() == ix.Keys()[..i] + ix.Keys()[i + 1..]
    ensures forall id :: id in ix.Erase(i).queue <==> id in ix.queue && id != ix.queue[i]
  {
    assert ix.Erase(i).WellFormed();
    assert ix.Erase(i).Keys() == ix.Keys()[..i] + ix.Keys()[i + 1..];
    EraseMembers(ix, i);
  }

  lemma EraseMembers<Id>(ix: Index<Id>, i: nat)
    requires ix.Valid() && i < |ix.queue|
    ensures forall id :: id in ix.Erase(i).queue <==> id in ix.queue && id != ix.queue[i]
  {
    assert ix.queue == ix.queue[..i] + [ix.queue[i]] + ix.queue[i + 1..];
    forall id | id in ix.queue[..i] || id in ix.queue[i + 1..] ensures id != ix.queue[i] {
      assert ix.timers[id].next != ix.Keys()[i];
    }
  }

  lemma InsertAscending(keys: seq<int>, key: int, i: nat)
    requires Ascending(keys) && i <= |keys|
    requires (i > 0 ==> keys[i - 1] < key) && (i < |keys| ==> keys[i] > key)
    ensures Ascending(keys[..i] + [key] + keys[i..])
    ensures key !in keys
  {
  }

  lemma InsertedMembers<T>(s: seq<T>, x: T, i: nat)
    requires i <= |s|
    ensures forall y :: y in s[..i] + [x] + s[i..] <==> y in s || y == x
  {
    assert s == s[..i] + s[i..];
  }

  lemma InsertedKeys<Id>(ix: Index<Id>, id: Id, i: nat, r: Index<Id>)
    requires ix.WellFormed() && id in ix.timers && i <= |ix.queue|
    requires r == ix.(queue := ix.queue[..i] + [id] + ix.queue[i..])
    ensures r.WellFormed() && r.Keys() == ix.Keys()[..i] + [ix.timers[id].next] + ix.Keys()[i..]
  {
    InsertedMembers(ix.queue, id, i);
    assert r.WellFormed();
    assert r.Keys() == ix.Keys()[..i] + [ix.timers[id].next] + ix.Keys()[i..];
  }

  lemma InsertNewKey<Id>(ix: Index<Id>, id: Id, i: nat)
    requires ix.Valid() && id in ix.timers && i == Rank(ix.Keys(), ix.timers[id].next)
    requires i < |ix.queue| ==> ix.Keys()[i] != ix.timers[id].next
    ensures ix.Insert(id).Valid()
    ensures ix.Insert(id).queue == ix.queue[..i] + [id] + ix.queue[i..]
    ensures ix.Insert(id).Keys() == ix.Keys()[..i] + [ix.timers[id].next] + ix.Keys()[i..]
    ensures ix.timers[id].next !in ix.Keys()
  {
    InsertAscending(ix.Keys(), ix.timers[id].next, i);
    InsertedKeys(ix, id, i, ix.Insert(id));
  }

  /** An insertion is lost exactly when its deadline is already a key. */
  lemma InsertKeepsValid<Id>(ix: Index<Id>, id: Id)
    requires ix.Valid() && id in ix.timers && id !in ix.queue
    ensures ix.Insert(id).Valid()
    ensures id in ix.Insert(id).queue <==> ix.timers[id].next !in ix.Keys()
    ensures forall other :: other != id ==> (other in ix.Insert(id).queue <==> other in ix.queue)
    ensures forall key :: key in ix.Insert(id).Keys() <==> key in ix.Keys() || key == ix.timers[id].next
  {
    var key := ix.timers[id].next;
    var i := Rank(ix.Keys(), key);
    if i == |ix.queue| || ix.Keys()[i] != key {
      InsertNewKey(ix, id, i);
      InsertedMembers(ix.queue, id, i);
      InsertedMembers(ix.Keys(), key, i);
    } else {
      assert ix.Insert(id) == ix;
      assert ix.Keys()[i] in ix.Keys();
    }
  }

  /** Changing a timer that is not in the set moves nothing. */
  lemma PutKeepsValid<Id>(ix: Index<Id>, id: Id, t: Timer)
    requires ix.Valid() && id !in ix.queue
    ensures ix.Put(id, t).Valid() && ix.Put(id, t).Keys() == ix.Keys()
  {
    assert ix.Put(id, t).WellFormed();
    assert ix.Put(id, t).Keys() == ix.Keys();
  }

  lemma FindFindsTheEntry<Id>(ix: Index<Id>, id: Id)
    requires ix.Valid() && id in ix.queue
    ensures ix.Find(ix.timers[id].next).Some? && ix.queue[ix.Find(ix.timers[id].next).value] == id
  {
    var j :| 0 <= j < |ix.queue| && ix.queue[j] == id;
    var i := Rank(ix.Keys(), ix.timers[id].next);
    assert ix.Keys()[j] == ix.timers[id].next;
  }

  // ----- the operations -----

  function Add<Id(==)>(ix: Index<Id>, id: Id, t: Timer): Index<Id>
    requires ix.WellFormed() && id !in ix.queue
  {
    ix.Put(id, t).Insert(id)
  }

  /** Whether an insertion of deadline `key` returns the first entry (its own, or the equal one that made it fail). */
  function AtFront<Id(==)>(ix: Index<Id>, key: int): bool
    requires ix.WellFormed()
  {
    Rank(ix.Keys(), key) == 0
  }

  /** Drops whatever entry has the timer's deadline. */
  function Unlink<Id(==)>(ix: Index<Id>, id: Id): Index<Id>
    requires ix.WellFormed() && id in ix.timers
  {
    match ix.Find(ix.timers[id].next)
    case Some(i) => ix.Erase(i)
    case None => ix
  }

  function Cancel<Id(==)>(ix: Index<Id>, id: Id): (r: (Index<Id>, bool))
    requires ix.WellFormed() && id in ix.timers
  {
    if ix.timers[id].cb == None then (ix, false)
    else (Unlink(ix.Put(id, ix.timers[id].(cb := None)), id), true)
  }

  /** The common part of `refresh` and `reset`: take the entry out, change the timer, put it back. */
  function Move<Id(==)>(ix: Index<Id>, id: Id, ms: nat, next: int): Index<Id>
    requires ix.WellFormed() && id in ix.timers
  {
    Unlink(ix, id).Put(id, ix.timers[id].(ms := ms, next := next)).Insert(id)
  }

  predicate Movable<Id(==)>(ix: Index<Id>, id: Id)
    requires ix.WellFormed() && id in ix.timers
  {
    ix.timers[id].cb.Some? && ix.Find(ix.timers[id].next).Some?
  }

  /** A call on a timer without a callback, or whose deadline is no key, changes nothing. */
  function Rearm<Id(==)>(ix: Index<Id>, id: Id, ms: nat, next: int): (Index<Id>, bool)
    requires ix.WellFormed() && id in ix.timers
  {
    if Movable(ix, id) then (Move(ix, id, ms, next), true) else (ix, false)
  }

  /** `refresh` re-arms a timer with its own period from now on. */
  function RefreshDeadline(t: Timer, now: int): int { now + Span(t.ms) }

  function ResetDeadline(t: Timer, ms: nat, fromNow: bool, now: int): int {
    (if fromNow then now else t.next - Span(t.ms)) + Span(ms)
  }

  predicate ResetIsNoOp(t: Timer, ms: nat, fromNow: bool) { ms == t.ms && !fromNow }

  const NO_TIMER: nat := 0xFFFF_FFFF_FFFF_FFFF

  /** The milliseconds until the first deadline, rounded down; the greatest 64-bit value when nothing is armed. */
  function NextTimer<Id(==)>(ix: Index<Id>, now: int): nat
    requires ix.WellFormed()
  {
    if ix.queue == [] then NO_TIMER
    else if now >= ix.Keys()[0] then 0
    else (ix.Keys()[0] - now) / NANOS_PER_MS
  }

  lemma UnlinkKeepsValid<Id>(ix: Index<Id>, id: Id)
    requires ix.Valid() && id in ix.timers
    ensures Unlink(ix, id).Valid() && id !in Unlink(ix, id).queue
    ensures Unlink(ix, id).timers == ix.timers
    ensures forall key :: key in Unlink(ix, id).Keys() <==> key in ix.Keys() && key != ix.timers[id].next
    ensures forall other :: other in Unlink(ix, id).queue <==>
      other in ix.queue && ix.timers[other].next != ix.timers[id].next
  {
    if id in ix.queue {
      FindFindsTheEntry(ix, id);
    }
    match ix.Find(ix.timers[id].next)
    case Some(i) =>
      EraseKeepsValid(ix, i);
      assert forall j :: 0 <= j < |ix.queue| && ix.Keys()[j] == ix.Keys()[i] ==> j == i;
    case None =>
      assert forall j :: 0 <= j < |ix.queue| ==> ix.Keys()[j] != ix.timers[id].next;
  }

  lemma CancelKeepsValid<Id>(ix: Index<Id>, id: Id) returns (r: Index<Id>)
    requires ix.Valid() && id in ix.timers
    ensures r == Cancel(ix, id).0 && r.Valid() && (Cancel(ix, id).1 <==> ix.timers[id].cb.Some?)
    ensures r.timers == ix.timers[id := ix.timers[id].(cb := None)]
    ensures forall key :: key in r.Keys() ==> key in ix.Keys()
    ensures forall other :: other in r.queue <==>
      other in ix.queue && (ix.timers[id].cb.Some? ==> ix.timers[other].next != ix.timers[id].next)
    ensures ix.timers[id].cb.Some? ==> id !in r.queue
  {
    if ix.timers[id].cb.Some? {
      var cleared := ix.Put(id, ix.timers[id].(cb := None));
      assert cleared.WellFormed() && cleared.Keys() == ix.Keys();
      UnlinkKeepsValid(cleared, id);
      r := Unlink(cleared, id);
    } else {
      r := ix;
    }
  }

  lemma MoveKeepsValid<Id>(ix: Index<Id>, id: Id, ms: nat, next: int) returns (r: Index<Id>)
    requires ix.Valid() && id in ix.timers
    ensures r == Move(ix, id, ms, next) && r.Valid()
    ensures r.timers == ix.timers[id := ix.timers[id].(ms := ms, next := next)]
    ensures forall key :: key in r.Keys() <==> key == next || (key in ix.Keys() && key != ix.timers[id].next)
    ensures forall other :: other != id ==>
      (other in r.queue <==> other in ix.queue && ix.timers[other].next != ix.timers[id].next)
    ensures id in r.queue <==> next !in ix.Keys() || next == ix.timers[id].next
  {
    UnlinkKeepsValid(ix, id);
    var detached := Unlink(ix, id).Put(id, ix.timers[id].(ms := ms, next := next));
    PutKeepsValid(Unlink(ix, id), id, ix.timers[id].(ms := ms, next := next));
    InsertKeepsValid(detached, id);
    r := detached.Insert(id);
  }

  /** The calls that re-arm a timer, as one: what they return and what they leave behind. */
  lemma RearmKeepsValid<Id>(ix: Index<Id>, id: Id, ms: nat, next: int) returns (r: Index<Id>)
    requires ix.Valid() && id in ix.timers
    ensures r == Rearm(ix, id, ms, next).0 && r.Valid()
    ensures if ix.timers[id].cb.Some? && ix.timers[id].next in ix.Keys()
      then r.timers == ix.timers[id := ix.timers[id].(ms := ms, next := next)]
      else r == ix
    ensures Rearm(ix, id, ms, next).1 <==> ix.timers[id].cb.Some? && ix.timers[id].next in ix.Keys()
    ensures r != ix ==> (id in r.queue <==> next !in ix.Keys() || next == ix.timers[id].next)
    ensures r != ix ==> forall key :: key in r.Keys() <==>
      key == next || (key in ix.Keys() && key != ix.timers[id].next)
    ensures r != ix ==> forall other :: other != id ==>
      (other in r.queue <==> other in ix.queue && ix.timers[other].next != ix.timers[id].next)
  {
    FindIsExact(ix, ix.timers[id].next);
    r := ix;
    if Movable(ix, id) {
      r := MoveKeepsValid(ix, id, ms, next);
    }
  }

  lemma FindIsExact<Id>(ix: Index<Id>, key: int)
    requires ix.Valid()
    ensures ix.Find(key).Some? <==> key in ix.Keys()
  {
    if key in ix.Keys() {
      var j :| 0 <= j < |ix.Keys()| && ix.Keys()[j] == key;
      RankIs(ix.Keys(), key, j);
    }
  }

  /** A new timer is in the set unless its deadline was a key already; nothing else changes. */
  lemma AddKeepsValid<Id>(ix: Index<Id>, id: Id, t: Timer) returns (r: Index<Id>)
    requires ix.Valid() && id !in ix.timers
    ensures r == Add(ix, id, t) && r.Valid() && r.timers == ix.timers[id := t]
    ensures id in r.queue <==> t.next !in ix.Keys()
    ensures forall other :: other != id ==> (other in r.queue <==> other in ix.queue)
  {
    PutKeepsValid(ix, id, t);
    InsertKeepsValid(ix.Put(id, t), id);
    r := ix.Put(id, t).Insert(id);
  }

  /** An insertion ends at the front exactly when no deadline in the set is earlier. */
  lemma AtFrontExactly<Id>(ix: Index<Id>, key: int)
    requires ix.Valid()
    ensures AtFront(ix, key) <==> forall k :: k in ix.Keys() ==> key <= k
  {
    var n := Rank(ix.Keys(), key);
    if n > 0 {
      assert ix.Keys()[0] in ix.Keys() && ix.Keys()[0] < key;
    } else {
      assert forall i :: 0 <= i < |ix.Keys()| ==> ix.Keys()[0] <= ix.Keys()[i];
    }
  }

  /** The deadlines in nanoseconds: refreshed, reset from now on, and reset on the timer's old start. */
  lemma DeadlinesInNanoseconds(t: Timer, ms: nat, now: int)
    ensures RefreshDeadline(t, now) == now + 1_000_000 * t.ms
    ensures ResetDeadline(t, ms, true, now) == now + 1_000_000 * ms
    ensures ResetDeadline(t, ms, false, now) == t.next + 1_000_000 * (ms as int - t.ms)
    ensures ResetIsNoOp(t, ms, true) == false && (ResetIsNoOp(t, ms, false) <==> ms == t.ms)
  {
  }

  /** The milliseconds reported fall short of the first deadline by less than one. */
  lemma NextTimerIsExact<Id>(ix: Index<Id>, now: int, first: Id)
    requires ix.Valid() && first in ix.queue
    requires forall id :: id in ix.queue ==> ix.timers[first].next <= ix.timers[id].next
    ensures var wait, deadline := NextTimer(ix, now), ix.timers[first].next;
      if deadline <= now then wait == 0 else 1_000_000 * wait <= deadline - now < 1_000_000 * (wait + 1)
  {
    var j :| 0 <= j < |ix.queue| && ix.queue[j] == first;
    assert ix.queue[0] in ix.queue;
    assert ix.Keys()[0] <= ix.Keys()[j];
  }

  lemma NothingArmed<Id>(ix: Index<Id>, now: int)
    requires ix.WellFormed()
    ensures ix.queue == [] ==> NextTimer(ix, now) == 0xFFFF_FFFF_FFFF_FFFF
  {
  }

  // ----- calls that hit another timer -----

  /** Some other timer's entry is gone in `r`. */
  ghost predicate TakesAnother<Id>(ix: Index<Id>, r: Index<Id>, id: Id) {
    exists other :: other != id && other in ix.queue && other !in r.queue
  }

  /** The timer has no entry, and its deadline is the key of another one's. */
  ghost predicate Displaced<Id>(ix: Index<Id>, id: Id)
    requires ix.WellFormed() && id in ix.timers
  {
    id !in ix.queue && ix.timers[id].next in ix.Keys()
  }

  lemma DisplacedBy<Id>(ix: Index<Id>, id: Id)
    requires ix.Valid() && id in ix.timers
    ensures Displaced(ix, id) <==>
      exists other :: other != id && other in ix.queue && ix.timers[other].next == ix.timers[id].next
  {
    if Displaced(ix, id) {
      var j :| 0 <= j < |ix.Keys()| && ix.Keys()[j] == ix.timers[id].next;
      assert ix.queue[j] in ix.queue;
    }
    if other :| other != id && other in ix.queue && ix.timers[other].next == ix.timers[id].next {
      var j :| 0 <= j < |ix.queue| && ix.queue[j] == other;
      assert ix.Keys()[j] == ix.timers[id].next;
      if id in ix.queue {
        SameKeySameTimer(ix, id, other);
      }
    }
  }

  /** `cancel` looks its timer up by deadline: it takes another timer's entry out of the set exactly when the
      cancelled timer has no entry of its own and its deadline is a key nevertheless. */
  lemma CancelHitsAnotherTimer<Id>(ix: Index<Id>, id: Id)
    requires ix.Valid() && id in ix.timers
    ensures TakesAnother(ix, Cancel(ix, id).0, id) <==> ix.timers[id].cb.Some? && Displaced(ix, id)
  {
    DisplacedBy(ix, id);
    var r := CancelKeepsValid(ix, id);
    assert TakesAnother(ix, r, id) <==> ix.timers[id].cb.Some? && Displaced(ix, id);
  }

  /** So do the calls that re-arm a timer: `refresh`, and `reset` past its early exit. */
  lemma RearmHitsAnotherTimer<Id>(ix: Index<Id>, id: Id, ms: nat, next: int)
    requires ix.Valid() && id in ix.timers
    ensures TakesAnother(ix, Rearm(ix, id, ms, next).0, id) <==> ix.timers[id].cb.Some? && Displaced(ix, id)
  {
    DisplacedBy(ix, id);
    var r := RearmKeepsValid(ix, id, ms, next);
    assert TakesAnother(ix, r, id) <==> ix.timers[id].cb.Some? && Displaced(ix, id);
  }
}
