/** The database connection pool: any number of threads borrow connections under a mutex and a condition variable.
    A step is one critical section, or one thing a thread does outside the lock. */
module ConnectionPool {
  import opened Options

  type Conn = nat
  type Thread = nat

  /** `checking`: taken from the queue, being pinged outside the lock by the thread named. `asleep`: in `cv_.wait`, not
      notified. `notified`: woken, but without the lock yet. */
  datatype Pool = Pool(
    initialized: bool, created: set<Conn>, queue: seq<Conn>, checking: map<Conn, Thread>, borrowed: set<Conn>,
    asleep: set<Thread>, notified: set<Thread>)

  const EMPTY_POOL: Pool := Pool(false, {}, [], map[], {}, {}, {})

  // ----- the critical sections -----

  datatype Attempt = Got(conn: Conn) | MustWait | NotInitialized

  /** What a thread that holds the lock does at the head of the wait loop. */
  function Take(queue: seq<Conn>, initialized: bool): (Attempt, seq<Conn>) {
    if queue != [] then (Got(queue[0]), queue[1..])
    else if !initialized then (NotInitialized, queue)
    else (MustWait, queue)
  }

  // ----- steps -----

  datatype Step =
    | Init(conns: seq<Conn>, complete: bool)
    | Enter(t: Thread)                          // first look at the queue
    | Recheck(t: Thread)                        // a woken thread looks again
    | WakeSpuriously(t: Thread)
    | PingSucceeds(c: Conn)
    | PingThrows(c: Conn, woken: Option<Thread>)
    | GiveBack(c: Conn, woken: Option<Thread>)  // the deleter of a borrowed connection

  predicate Distinct(s: seq<Conn>) { forall i, j :: 0 <= i < j < |s| ==> s[i] != s[j] }

  function Elements(s: seq<Conn>): set<Conn> { set c | c in s }

  /** `notify_one` wakes one sleeping thread, if there is one. */
  predicate MayWake(p: Pool, woken: Option<Thread>) {
    match woken
    case Some(t) => t in p.asleep
    case None => p.asleep == {}
  }

  predicate Enabled(p: Pool, s: Step) {
    match s
    case Init(conns, _) => Distinct(conns) && Elements(conns) !! p.created
    case Enter(t) => t !in p.asleep && t !in p.notified && t !in p.checking.Values
    case Recheck(t) => t in p.notified
    case WakeSpuriously(t) => t in p.asleep
    case PingSucceeds(c) => c in p.checking
    case PingThrows(c, woken) => c in p.checking && MayWake(p, woken)
    case GiveBack(c, woken) => c in p.borrowed && MayWake(p, woken)
  }

  function Wake(p: Pool, t: Thread): Pool { p.(asleep := p.asleep - {t}, notified := p.notified + {t}) }

  function Notify(p: Pool, woken: Option<Thread>): Pool {
    match woken
    case Some(t) => Wake(p, t)
    case None => p
  }

  /** A thread with the lock takes a connection, goes to sleep, or leaves with an exception. */
  function Look(p: Pool, t: Thread): Pool {
    var (a, queue) := Take(p.queue, p.initialized);
    match a
    case Got(c) => p.(queue := queue, checking := p.checking[c := t])
    case MustWait => p.(asleep := p.asleep + {t})
    case NotInitialized => p
  }

  function Apply(p: Pool, s: Step): Pool {
    match s
    case Init(conns, complete) =>
      if p.initialized then p
      else p.(created := p.created + Elements(conns), queue := p.queue + conns, initialized := complete)
    case Enter(t) => Look(p, t)
    case Recheck(t) => Look(p.(notified := p.notified - {t}), t)
    case WakeSpuriously(t) => Wake(p, t)
    case PingSucceeds(c) => p.(checking := p.checking - {c}, borrowed := p.borrowed + {c})
    case PingThrows(c, woken) => Notify(p.(checking := p.checking - {c}, queue := p.queue + [c]), woken)
    case GiveBack(c, woken) => Notify(p.(borrowed := p.borrowed - {c}, queue := p.queue + [c]), woken)
  }

  // ----- the class -----

  /** Each method is one critical section. The ghost fields are what the fields of the pool do not show: where the
      connections and the threads are. */
  class DbConnectionPool {
    var connections: seq<Conn>
    var initialized: bool
    ghost var created: set<Conn>
    ghost var checking: map<Conn, Thread>
    ghost var borrowed: set<Conn>
    ghost var asleep: set<Thread>
    ghost var notified: set<Thread>

    ghost function State(): Pool
      reads this
    {
      Pool(initialized, created, connections, checking, borrowed, asleep, notified)
    }

    /** The history fields follow the step. */
    ghost method Follow(p: Pool)
      modifies this`created, this`checking, this`borrowed, this`asleep, this`notified
      ensures State() == p.(queue := connections, initialized := initialized)
    {
      created, checking, borrowed, asleep, notified := p.created, p.checking, p.borrowed, p.asleep, p.notified;
    }

    constructor ()
      ensures State() == EMPTY_POOL
    {
      connections, initialized := [], false;
      created, checking, borrowed, asleep, notified := {}, map[], {}, {}, {};
    }

    /** `conns` are the connections that could be created; `complete` is false if creating the next one threw. */
    method Init(conns: seq<Conn>, complete: bool)
      modifies this
      ensures State() == Apply(old(State()), Step.Init(conns, complete))
    {
      ghost var after := Apply(State(), Step.Init(conns, complete));
      if initialized {
        return;
      }
      for i := 0 to |conns|
        invariant connections == old(connections) + conns[..i] && initialized == old(initialized)
      {
        connections := connections + [conns[i]];
      }
      if complete {
        initialized := true;
      }
      Follow(after);
    }

    /** One pass of the wait loop by thread `t`: its first (`Enter`) or one after a wake-up (`Recheck`). */
    method TryTake(ghost t: Thread, ghost step: Step) returns (a: Attempt)
      requires step in {Enter(t), Recheck(t)}
      modifies this
      ensures State() == Apply(old(State()), step)
      ensures if old(connections) != [] then a == Got(old(connections)[0]) && connections == old(connections)[1..]
        else connections == [] && a == if initialized then MustWait else NotInitialized
    {
      ghost var after := Apply(State(), step);
      if connections == [] {
        a := if initialized then MustWait else NotInitialized;
      } else {
        a := Got(connections[0]);
        connections := connections[1..];
      }
      Follow(after);
    }

    /** A connection comes back and one waiting thread is notified: in the deleter, or after a failed check. */
    method PutBack(c: Conn, ghost woken: Option<Thread>, ghost step: Step)
      requires step in {GiveBack(c, woken), PingThrows(c, woken)}
      modifies this
      ensures State() == Apply(old(State()), step)
    {
      ghost var after := Apply(State(), step);
      connections := connections + [c];
      Follow(after);
    }
  }

  // ----- invariants -----

  /** Every created connection is in exactly one place. */
  ghost predicate Partition(p: Pool) {
    && Distinct(p.queue)
    && Elements(p.queue) !! p.checking.Keys !! p.borrowed
    && p.created == Elements(p.queue) + p.checking.Keys + p.borrowed
  }

  /** While someone sleeps, every queued connection has a woken thread that has still to look. */
  ghost predicate NoLostWakeUp(p: Pool) {
    && p.asleep !! p.notified
    && (p.asleep + p.notified != {} ==> p.initialized)
    && (p.asleep != {} ==> |p.queue| <= |p.notified|)
  }

  lemma QueueEnds(s: seq<Conn>, c: Conn)
    requires Distinct(s)
    ensures c !in s ==> Distinct(s + [c])
    ensures Elements(s + [c]) == Elements(s) + {c}
    ensures s != [] ==> Distinct(s[1..]) && s[0] !in s[1..] && Elements(s) == Elements(s[1..]) + {s[0]}
  {
    if s != [] {
      assert s == [s[0]] + s[1..];
    }
  }

  lemma Joined(a: seq<Conn>, b: seq<Conn>)
    requires Distinct(a) && Distinct(b) && Elements(a) !! Elements(b)
    ensures Distinct(a + b) && Elements(a + b) == Elements(a) + Elements(b)
  {
    forall i, j | 0 <= i < j < |a + b| ensures (a + b)[i] != (a + b)[j] {
      if i < |a| && j >= |a| {
        assert a[i] in Elements(a) && b[j - |a|] in Elements(b);
      }
    }
  }

  lemma LookKeepsPartition(p: Pool, t: Thread)
    requires Partition(p)
    ensures Partition(Look(p, t))
  {
    QueueEnds(p.queue, 0);
  }

  lemma StepKeepsPartition(p: Pool, s: Step)
    requires Partition(p) && Enabled(p, s)
    ensures Partition(Apply(p, s))
  {
    match s
    case Init(conns, _) => Joined(p.queue, conns);
    case Enter(t) => LookKeepsPartition(p, t);
    case Recheck(t) => LookKeepsPartition(p.(notified := p.notified - {t}), t);
    case WakeSpuriously(t) =>
    case PingSucceeds(c) => assert (p.checking - {c}).Keys == p.checking.Keys - {c};
    case PingThrows(c, woken) => FailedCheckKeepsPartition(p, c);
    case GiveBack(c, woken) => ReturnKeepsPartition(p, c);
  }

  lemma FailedCheckKeepsPartition(p: Pool, c: Conn)
    requires Partition(p) && c in p.checking
    ensures Partition(p.(checking := p.checking - {c}, queue := p.queue + [c]))
  {
    QueueEnds(p.queue, c);
    assert (p.checking - {c}).Keys == p.checking.Keys - {c};
  }

  lemma ReturnKeepsPartition(p: Pool, c: Conn)
    requires Partition(p) && c in p.borrowed
    ensures Partition(p.(borrowed := p.borrowed - {c}, queue := p.queue + [c]))
  {
    QueueEnds(p.queue, c);
  }

  lemma WakingMovesOne(p: Pool, t: Thread)
    requires t in p.asleep && p.asleep !! p.notified
    ensures |Wake(p, t).notified| == |p.notified| + 1
  {
  }

  lemma StepLosesNoWakeUp(p: Pool, s: Step)
    requires NoLostWakeUp(p) && Enabled(p, s)
    ensures NoLostWakeUp(Apply(p, s))
  {
    match s
    case Init(_, _) =>
    case Enter(t) =>
    case Recheck(t) => assert p.notified == (p.notified - {t}) + {t};
    case WakeSpuriously(t) => WakingMovesOne(p, t);
    case PingSucceeds(c) =>
    case PingThrows(c, woken) => if woken.Some? { WakingMovesOne(p, woken.value); }
    case GiveBack(c, woken) => if woken.Some? { WakingMovesOne(p, woken.value); }
  }

  // ----- runs -----

  predicate Run(pools: seq<Pool>, steps: seq<Step>) {
    && |pools| == |steps| + 1 && pools[0] == EMPTY_POOL
    && forall i :: 0 <= i < |steps| ==> Enabled(pools[i], steps[i]) && pools[i + 1] == Apply(pools[i], steps[i])
  }

  /** At every moment of every interleaving no connection is lost or lent twice, and no wake-up is lost. */
  lemma {:induction false} RunKeepsInvariants(pools: seq<Pool>, steps: seq<Step>, i: nat)
    requires Run(pools, steps) && i < |pools|
    ensures Partition(pools[i]) && NoLostWakeUp(pools[i])
  {
    if i > 0 {
      RunKeepsInvariants(pools, steps, i - 1);
      StepKeepsPartition(pools[i - 1], steps[i - 1]);
      StepLosesNoWakeUp(pools[i - 1], steps[i - 1]);
    }
  }

  /** When every connection is back and no woken thread has still to look, nobody sleeps. */
  lemma NobodySleepsBesideAFullPool(pools: seq<Pool>, steps: seq<Step>, i: nat)
    requires Run(pools, steps) && i < |pools|
    requires pools[i].checking == map[] && pools[i].borrowed == {} && pools[i].notified == {} && pools[i].created != {}
    ensures pools[i].asleep == {}
  {
    RunKeepsInvariants(pools, steps, i);
    assert pools[i].queue != [];
  }

  /** `init` works once: the set of connections is fixed from then on. */
  lemma {:induction false} PoolSizeIsFixed(pools: seq<Pool>, steps: seq<Step>, i: nat, j: nat)
    requires Run(pools, steps) && i <= j < |pools| && pools[i].initialized
    ensures pools[j].initialized && pools[j].created == pools[i].created
    decreases j
  {
    if i < j {
      PoolSizeIsFixed(pools, steps, i, j - 1);
    }
  }

  // ----- what a thread gets -----

  /** A look at the queue: its first connection goes to the thread; on an empty queue the thread sleeps if the pool is
      initialised, and otherwise leaves with an exception, with nothing taken. */
  lemma LookInFull(p: Pool, t: Thread, step: Step)
    requires NoLostWakeUp(p) && Enabled(p, step) && step in {Enter(t), Recheck(t)}
    ensures var q, a := Apply(p, step), Take(p.queue, p.initialized).0;
      && q.created == p.created && q.borrowed == p.borrowed && t !in q.notified
      && if p.queue != [] then
           a == Got(p.queue[0]) && q.queue == p.queue[1..] && q.checking == p.checking[p.queue[0] := t]
           && q.asleep == p.asleep
         else
           q.queue == [] && q.checking == p.checking
           && if p.initialized then a == MustWait && t in q.asleep else a == NotInitialized && t !in q.asleep
  {
  }

  /** `init` works on a pool not initialised yet, which it is afterwards unless creating a connection threw. */
  lemma InitInFull(p: Pool, conns: seq<Conn>, complete: bool)
    requires Enabled(p, Step.Init(conns, complete))
    ensures var q := Apply(p, Step.Init(conns, complete));
      if p.initialized then q == p
      else
        && q.queue == p.queue + conns && (q.initialized <==> complete)
        && (forall c :: c in q.created <==> c in p.created || c in conns)
        && q == p.(queue := q.queue, initialized := q.initialized, created := q.created)
  {
  }

  /** A connection given back, or one whose check failed, joins the end of the queue, and if anybody sleeps exactly one
      sleeper is notified; a check that succeeds lends the connection. */
  lemma ReturnInFull(p: Pool, c: Conn, woken: Option<Thread>, step: Step)
    requires Partition(p) && Enabled(p, step) && step in {GiveBack(c, woken), PingThrows(c, woken), PingSucceeds(c)}
    ensures var q := Apply(p, step);
      && c !in q.checking && q.created == p.created
      && if step == PingSucceeds(c) then
           q.queue == p.queue && q.borrowed == p.borrowed + {c} && q.asleep == p.asleep && q.notified == p.notified
         else
           && q.queue == p.queue + [c] && q.borrowed == p.borrowed - {c}
           && (p.asleep == {} <==> woken == None)
           && (woken.Some? ==> woken.value in p.asleep && q.asleep == p.asleep - {woken.value}
                               && q.notified == p.notified + {woken.value})
           && (woken == None ==> q.asleep == {} && q.notified == p.notified)
  {
  }

  /** A spurious wake-up makes a sleeper look again, and changes nothing else. */
  lemma SpuriousInFull(p: Pool, t: Thread)
    requires t in p.asleep
    ensures var q := Apply(p, WakeSpuriously(t));
      t !in q.asleep && t in q.notified && q == p.(asleep := p.asleep - {t}, notified := p.notified + {t})
  {
  }

  lemma OneMoreStep(pools: seq<Pool>, steps: seq<Step>, s: Step) returns (pools': seq<Pool>, steps': seq<Step>)
    requires Run(pools, steps) && Enabled(pools[|steps|], s)
    ensures pools' == pools + [Apply(pools[|steps|], s)] && steps' == steps + [s] && Run(pools', steps')
  {
    pools', steps' := pools + [Apply(pools[|steps|], s)], steps + [s];
  }

  lemma LendTheOnly(c: Conn, t: Thread) returns (pools: seq<Pool>, steps: seq<Step>)
    ensures Run(pools, steps) && |steps| == 3 && pools[3] == Pool(true, {c}, [], map[], {c}, {}, {})
  {
    pools, steps := [EMPTY_POOL], [];
    assert Elements([c]) == {c} && Elements([]) == {};
    pools, steps := OneMoreStep(pools, steps, Step.Init([c], true));
    assert pools[1] == Pool(true, {c}, [c], map[], {}, {}, {});
    pools, steps := OneMoreStep(pools, steps, Enter(t));
    assert pools[2] == Pool(true, {c}, [], map[c := t], {}, {}, {});
    pools, steps := OneMoreStep(pools, steps, PingSucceeds(c));
  }

  /** A run in which a second thread sleeps while the only connection is lent, and gets it when it comes back. */
  lemma SleeperGetsTheConnection(c: Conn, t: Thread, u: Thread) returns (pools: seq<Pool>, steps: seq<Step>)
    ensures Run(pools, steps) && |steps| == 6 && steps[3] == Enter(u) && steps[4] == GiveBack(c, Some(u))
    ensures pools[4].asleep == {u} && pools[5].notified == {u} && pools[6].checking == map[c := u]
  {
    pools, steps := LendTheOnly(c, t);
    pools, steps := OneMoreStep(pools, steps, Enter(u));
    assert pools[4] == Pool(true, {c}, [], map[], {c}, {u}, {});
    pools, steps := OneMoreStep(pools, steps, GiveBack(c, Some(u)));
    assert pools[5] == Pool(true, {c}, [c], map[], {}, {}, {u});
    pools, steps := OneMoreStep(pools, steps, Recheck(u));
  }
}
