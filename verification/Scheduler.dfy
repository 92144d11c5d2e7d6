/** The scheduler's task queue: pinned and unpinned tasks, any number of workers, and the test by which it stops.
    Tasks are opaque and run to completion. */
module TaskScheduling {
  import opened Options

  type Thread = nat

  /** `pin` is the thread a task must run on, or -1. */
  datatype Task = Task(id: nat, pin: int)

  predicate MayRun(t: Task, thread: Thread) { t.pin == -1 || t.pin == thread }

  /** The position of the first task `thread` may run, or the length. */
  function FirstFor(queue: seq<Task>, thread: Thread): (i: nat)
    ensures i <= |queue|
    ensures forall j :: 0 <= j < i ==> !MayRun(queue[j], thread)
    ensures i < |queue| ==> MayRun(queue[i], thread)
  {
    if queue == [] || MayRun(queue[0], thread) then 0 else 1 + FirstFor(queue[1..], thread)
  }

  function Without(queue: seq<Task>, i: nat): seq<Task>
    requires i < |queue|
  {
    queue[..i] + queue[i + 1..]
  }

  // ----- all workers together -----

  /** `running`: executing its task; `leaving`: the task has finished but is still counted as active. The last three
      fields record the history: the pin of every accepted task, the thread that took it, the tasks finished. */
  datatype System = System(
    queue: seq<Task>, active: int, stopRequested: bool, running: map<Thread, Task>, leaving: map<Thread, Task>,
    accepted: map<nat, int>, taken: map<nat, Thread>, finished: set<nat>)

  const IDLE_SYSTEM: System := System([], 0, false, map[], map[], map[], map[], {})

  datatype Step =
    | Submit(submitter: Option<Thread>, task: Task)   // by a running task, or from outside
    | TakeTask(t: Thread)
    | FinishTask(t: Thread)
    | CountDown(t: Thread)
    | RequestStop

  predicate Enabled(s: System, e: Step) {
    match e
    case Submit(submitter, task) => task.id !in s.accepted && (submitter.Some? ==> submitter.value in s.running)
    case TakeTask(t) => t !in s.running && t !in s.leaving
    case FinishTask(t) => t in s.running
    case CountDown(t) => t in s.leaving
    case RequestStop => true
  }

  function Apply(s: System, e: Step): System
    requires Enabled(s, e)
  {
    match e
    case Submit(_, task) => s.(queue := s.queue + [task], accepted := s.accepted[task.id := task.pin])
    case TakeTask(t) =>
      var i := FirstFor(s.queue, t);
      if i == |s.queue| then s
      else
        s.(queue := Without(s.queue, i), active := s.active + 1, running := s.running[t := s.queue[i]],
           taken := s.taken[s.queue[i].id := t])
    case FinishTask(t) =>
      s.(running := s.running - {t}, leaving := s.leaving[t := s.running[t]],
         finished := s.finished + {s.running[t].id})
    case CountDown(t) => s.(leaving := s.leaving - {t}, active := s.active - 1)
    case RequestStop => s.(stopRequested := true)
  }

  /** `Scheduler::stopping` of the base class. */
  predicate Stopping(s: System) { s.stopRequested && s.queue == [] && s.active == 0 }

  // ----- the class -----

  /** Each method is one critical section. The ghost fields record the history and what the threads are doing. */
  class Scheduler {
    var tasks: seq<Task>
    var active: int
    var stopRequested: bool
    ghost var running: map<Thread, Task>
    ghost var leaving: map<Thread, Task>
    ghost var accepted: map<nat, int>
    ghost var taken: map<nat, Thread>
    ghost var finished: set<nat>

    ghost function State(): System
      reads this
    {
      System(tasks, active, stopRequested, running, leaving, accepted, taken, finished)
    }

    /** The history fields follow the step. */
    ghost method Follow(s: System)
      modifies this`running, this`leaving, this`accepted, this`taken, this`finished
      ensures State() == s.(queue := tasks, active := active, stopRequested := stopRequested)
    {
      running, leaving, accepted, taken, finished := s.running, s.leaving, s.accepted, s.taken, s.finished;
    }

    constructor ()
      ensures State() == IDLE_SYSTEM
    {
      tasks, active, stopRequested := [], 0, false;
      running, leaving, accepted, taken, finished := map[], map[], map[], map[], {};
    }

    /** `None` is a task with neither a fiber nor a callback, which is not accepted. The result says that the queue was
        empty before. */
    method ScheduleLock(task: Option<Task>, ghost submitter: Option<Thread>) returns (needTickle: bool)
      requires task.Some? ==> Enabled(State(), Submit(submitter, task.value))
      modifies this
      ensures needTickle <==> old(tasks) == []
      ensures State() == if task.Some? then Apply(old(State()), Submit(submitter, task.value)) else old(State())
    {
      needTickle := tasks == [];
      if task.Some? {
        ghost var after := Apply(State(), Submit(submitter, task.value));
        tasks := tasks + [task.value];
        Follow(after);
      }
    }

    /** The walk past the tasks that `thread` may not run. */
    method SkipOthers(thread: Thread) returns (it: nat, skipped: bool)
      ensures it == FirstFor(tasks, thread) && (skipped <==> it > 0)
    {
      it, skipped := 0, false;
      while it < |tasks| && tasks[it].pin != -1 && tasks[it].pin != thread
        invariant it <= |tasks| && (skipped <==> it > 0)
        invariant FirstFor(tasks, thread) == it + FirstFor(tasks[it..], thread)
      {
        it := it + 1;
        skipped := true;
      }
    }

    /** The first task `thread` may run leaves the queue and counts as active; the worker wakes another exactly when
        tasks are left behind. */
    method SelectTask(thread: Thread) returns (task: Option<Task>, tickleMe: bool)
      requires Enabled(State(), TakeTask(thread))
      modifies this
      ensures State() == Apply(old(State()), TakeTask(thread))
      ensures var i := FirstFor(old(tasks), thread); task == if i < |old(tasks)| then Some(old(tasks)[i]) else None
      ensures task.Some? ==> task.value.pin == -1 || task.value.pin == thread
      ensures task == None ==> tasks == old(tasks) && forall u :: u in tasks ==> u.pin != -1 && u.pin != thread
      ensures tickleMe <==> tasks != []
    {
      ghost var after := Apply(State(), TakeTask(thread));
      var it;
      it, tickleMe := SkipOthers(thread);
      task := None;
      if it < |tasks| {
        task := Some(tasks[it]);
        tasks := tasks[..it] + tasks[it + 1..];
        active := active + 1;
      }
      tickleMe := tickleMe || it != |tasks|;
      Follow(after);
    }

    /** After its task, the worker counts itself down. */
    method CountDownActive(ghost thread: Thread)
      requires Enabled(State(), CountDown(thread))
      modifies this
      ensures State() == Apply(old(State()), CountDown(thread))
    {
      ghost var after := Apply(State(), CountDown(thread));
      active := active - 1;
      Follow(after);
    }

    /** `stop` sets the flag; the wake-ups that follow it are not part of this model. */
    method Stop()
      modifies this
      ensures State() == Apply(old(State()), RequestStop)
    {
      stopRequested := true;
    }

    predicate IsStopping()
      reads this
      ensures IsStopping() <==> Stopping(State())
    {
      stopRequested && tasks == [] && active == 0
    }
  }

  // ----- invariants -----

  ghost predicate QueueInv(s: System) {
    && (forall i, j :: 0 <= i < j < |s.queue| ==> s.queue[i].id != s.queue[j].id)
    && (forall task :: task in s.queue ==>
         task.id in s.accepted && s.accepted[task.id] == task.pin && task.id !in s.taken)
  }

  /** A taken task runs or has finished. */
  ghost predicate RunsOrDone(s: System, id: nat) {
    id in s.finished || exists t :: t in s.running && s.running[t].id == id
  }

  /** Taken tasks are those of the running threads and the finished ones, each by a thread its pin allows. */
  ghost predicate TakenInv(s: System) {
    && (forall id :: id in s.taken ==> id in s.accepted && MayRun(Task(id, s.accepted[id]), s.taken[id]))
    && (forall id :: id in s.taken ==> RunsOrDone(s, id))
    && (forall t :: t in s.running ==> s.running[t].id in s.taken && s.running[t].id !in s.finished)
    && (forall id :: id in s.finished ==> id in s.taken)
  }

  ghost predicate Accounted(s: System) {
    forall id :: id in s.accepted ==> id in s.taken || exists task :: task in s.queue && task.id == id
  }

  ghost predicate CountInv(s: System) {
    s.active == |s.running.Keys| + |s.leaving.Keys| && s.running.Keys !! s.leaving.Keys
  }

  ghost predicate DistinctRunners(s: System) {
    forall t, u :: t in s.running && u in s.running && t != u ==> s.running[t].id != s.running[u].id
  }

  ghost predicate Inv(s: System) {
    QueueInv(s) && TakenInv(s) && Accounted(s) && CountInv(s) && DistinctRunners(s)
  }

  lemma WithoutMembers(queue: seq<Task>, i: nat)
    requires i < |queue| && forall i, j :: 0 <= i < j < |queue| ==> queue[i].id != queue[j].id
    ensures forall task :: task in queue <==> task == queue[i] || task in Without(queue, i)
    ensures forall task :: task in Without(queue, i) ==> task.id != queue[i].id
    ensures var q := Without(queue, i); forall j, k :: 0 <= j < k < |q| ==> q[j].id != q[k].id
  {
    assert queue == queue[..i] + [queue[i]] + queue[i + 1..];
  }

  lemma SubmitKeepsAccounted(s: System, submitter: Option<Thread>, task: Task)
    requires Accounted(s) && Enabled(s, Submit(submitter, task))
    ensures Accounted(Apply(s, Submit(submitter, task)))
  {
    var q := Apply(s, Submit(submitter, task));
    forall id | id in q.accepted ensures id in q.taken || exists u :: u in q.queue && u.id == id {
      if id == task.id {
        assert task in q.queue;
      } else if id !in s.taken {
        var u :| u in s.queue && u.id == id;
        assert u in q.queue;
      }
    }
  }

  lemma SubmitKeepsQueue(s: System, submitter: Option<Thread>, task: Task)
    requires QueueInv(s) && TakenInv(s) && Enabled(s, Submit(submitter, task))
    ensures QueueInv(Apply(s, Submit(submitter, task)))
  {
    assert task.id !in s.taken;
    forall i | 0 <= i < |s.queue| ensures s.queue[i].id != task.id {
      assert s.queue[i] in s.queue;
    }
  }

  lemma SubmitKeepsTaken(s: System, submitter: Option<Thread>, task: Task)
    requires TakenInv(s) && Enabled(s, Submit(submitter, task))
    ensures TakenInv(Apply(s, Submit(submitter, task)))
  {
    var q := Apply(s, Submit(submitter, task));
    forall id | id in q.taken ensures RunsOrDone(q, id) {
      assert RunsOrDone(s, id);
    }
  }

  lemma TakeKeepsQueue(s: System, t: Thread)
    requires QueueInv(s) && Accounted(s) && Enabled(s, TakeTask(t)) && FirstFor(s.queue, t) < |s.queue|
    ensures QueueInv(Apply(s, TakeTask(t))) && Accounted(Apply(s, TakeTask(t)))
  {
    var q := Apply(s, TakeTask(t));
    WithoutMembers(s.queue, FirstFor(s.queue, t));
    forall id | id in q.accepted ensures id in q.taken || exists u :: u in q.queue && u.id == id {
      if id !in q.taken {
        var u :| u in s.queue && u.id == id;
        assert u in q.queue;
      }
    }
  }

  lemma OneMoreThread(m: map<Thread, Task>, t: Thread, task: Task)
    requires t !in m
    ensures |m[t := task].Keys| == |m.Keys| + 1 && m[t := task].Keys == m.Keys + {t}
  {
    assert m[t := task].Keys == m.Keys + {t};
  }

  lemma TakeKeepsCount(s: System, t: Thread)
    requires CountInv(s) && Enabled(s, TakeTask(t)) && FirstFor(s.queue, t) < |s.queue|
    ensures CountInv(Apply(s, TakeTask(t)))
  {
    OneMoreThread(s.running, t, s.queue[FirstFor(s.queue, t)]);
  }

  lemma TakeKeepsRunners(s: System, t: Thread)
    requires QueueInv(s) && TakenInv(s) && DistinctRunners(s)
    requires Enabled(s, TakeTask(t)) && FirstFor(s.queue, t) < |s.queue|
    ensures DistinctRunners(Apply(s, TakeTask(t)))
  {
    assert s.queue[FirstFor(s.queue, t)] in s.queue;
  }

  lemma StillRunsOrDone(s: System, t: Thread, task: Task, q: System, id: nat)
    requires RunsOrDone(s, id) && t !in s.running && q.running == s.running[t := task] && q.finished == s.finished
    ensures RunsOrDone(q, id)
  {
    if id !in s.finished {
      var u :| u in s.running && s.running[u].id == id;
      assert u in q.running && q.running[u].id == id;
    }
  }

  lemma TakeKeepsTaken(s: System, t: Thread)
    requires QueueInv(s) && TakenInv(s) && Enabled(s, TakeTask(t)) && FirstFor(s.queue, t) < |s.queue|
    ensures TakenInv(Apply(s, TakeTask(t)))
  {
    var q, task := Apply(s, TakeTask(t)), s.queue[FirstFor(s.queue, t)];
    assert task in s.queue;
    forall id | id in q.taken ensures RunsOrDone(q, id) {
      if id == task.id {
        assert q.running[t].id == id;
      } else {
        StillRunsOrDone(s, t, task, q, id);
      }
    }
  }

  lemma FinishKeepsTaken(s: System, t: Thread)
    requires TakenInv(s) && DistinctRunners(s) && Enabled(s, FinishTask(t))
    ensures TakenInv(Apply(s, FinishTask(t)))
  {
    var q := Apply(s, FinishTask(t));
    forall id | id in q.taken ensures RunsOrDone(q, id) {
      if id !in q.finished {
        var u :| u in s.running && s.running[u].id == id;
        assert u in q.running && q.running[u].id == id;
      }
    }
  }

  lemma FinishKeepsCount(s: System, t: Thread)
    requires CountInv(s) && Enabled(s, FinishTask(t))
    ensures CountInv(Apply(s, FinishTask(t)))
  {
    OneMoreThread(s.leaving, t, s.running[t]);
    assert (s.running - {t}).Keys == s.running.Keys - {t};
  }

  lemma FinishKeepsRunners(s: System, t: Thread)
    requires DistinctRunners(s) && Enabled(s, FinishTask(t))
    ensures DistinctRunners(Apply(s, FinishTask(t)))
  {
  }

  lemma CountDownKeepsInv(s: System, t: Thread)
    requires Inv(s) && Enabled(s, CountDown(t))
    ensures Inv(Apply(s, CountDown(t)))
  {
    assert (s.leaving - {t}).Keys == s.leaving.Keys - {t};
  }

  lemma SubmitKeepsInv(s: System, submitter: Option<Thread>, task: Task)
    requires Inv(s) && Enabled(s, Submit(submitter, task))
    ensures Inv(Apply(s, Submit(submitter, task)))
  {
    SubmitKeepsQueue(s, submitter, task);
    SubmitKeepsTaken(s, submitter, task);
    SubmitKeepsAccounted(s, submitter, task);
  }

  lemma TakeKeepsInv(s: System, t: Thread)
    requires Inv(s) && Enabled(s, TakeTask(t))
    ensures Inv(Apply(s, TakeTask(t)))
  {
    if FirstFor(s.queue, t) < |s.queue| {
      TakeKeepsQueue(s, t);
      TakeKeepsTaken(s, t);
      TakeKeepsCount(s, t);
      TakeKeepsRunners(s, t);
    }
  }

  lemma FinishKeepsInv(s: System, t: Thread)
    requires Inv(s) && Enabled(s, FinishTask(t))
    ensures Inv(Apply(s, FinishTask(t)))
  {
    FinishKeepsTaken(s, t);
    FinishKeepsCount(s, t);
    FinishKeepsRunners(s, t);
  }

  lemma ApplyKeepsInv(s: System, e: Step)
    requires Inv(s) && Enabled(s, e)
    ensures Inv(Apply(s, e))
  {
    match e
    case Submit(submitter, task) => SubmitKeepsInv(s, submitter, task);
    case TakeTask(t) => TakeKeepsInv(s, t);
    case FinishTask(t) => FinishKeepsInv(s, t);
    case CountDown(t) => CountDownKeepsInv(s, t);
    case RequestStop =>
  }

  lemma TakenStays(s: System, e: Step, id: nat)
    requires QueueInv(s) && Enabled(s, e) && id in s.taken
    ensures id in Apply(s, e).taken && Apply(s, e).taken[id] == s.taken[id]
  {
    if e.TakeTask? && FirstFor(s.queue, e.t) < |s.queue| {
      assert s.queue[FirstFor(s.queue, e.t)] in s.queue;
    }
  }

  // ----- runs -----

  predicate Run(states: seq<System>, steps: seq<Step>) {
    && |states| == |steps| + 1 && states[0] == IDLE_SYSTEM
    && forall i :: 0 <= i < |steps| ==> Enabled(states[i], steps[i]) && states[i + 1] == Apply(states[i], steps[i])
  }

  lemma {:induction false} RunKeepsInv(states: seq<System>, steps: seq<Step>, i: nat)
    requires Run(states, steps) && i < |states|
    ensures Inv(states[i])
  {
    if i > 0 {
      RunKeepsInv(states, steps, i - 1);
      ApplyKeepsInv(states[i - 1], steps[i - 1]);
    }
  }

  /** What the history says of a taken task never changes. */
  lemma {:induction false} TakenForGood(states: seq<System>, steps: seq<Step>, i: nat, j: nat, id: nat)
    requires Run(states, steps) && i <= j < |states| && id in states[i].taken
    ensures id in states[j].taken && states[j].taken[id] == states[i].taken[id]
    decreases j
  {
    if i < j {
      TakenForGood(states, steps, i, j - 1, id);
      RunKeepsInv(states, steps, j - 1);
      TakenStays(states[j - 1], steps[j - 1], id);
    }
  }

  /** In this step a worker takes the task `id` out of the queue. */
  predicate Takes(s: System, e: Step, id: nat) {
    && e.TakeTask?
    && var i := FirstFor(s.queue, e.t); i < |s.queue| && s.queue[i].id == id
  }

  /** No task is taken twice, by the same thread or by another. */
  lemma TakenOnce(states: seq<System>, steps: seq<Step>, i: nat, j: nat, id: nat)
    requires Run(states, steps) && i < j < |steps| && Takes(states[i], steps[i], id)
    ensures !Takes(states[j], steps[j], id)
  {
    assert id in states[i + 1].taken;
    TakenForGood(states, steps, i + 1, j, id);
    RunKeepsInv(states, steps, j);
    assert forall task :: task in states[j].queue ==> task.id != id;
  }

  /** When `stopping` is observed true, every accepted task has been taken by a thread its pin allows, and has
      finished. */
  lemma StoppingMeansAllDone(states: seq<System>, steps: seq<Step>, i: nat)
    requires Run(states, steps) && i < |states| && Stopping(states[i])
    ensures states[i].running == map[] && states[i].leaving == map[]
    ensures forall id :: id in states[i].accepted ==>
      && id in states[i].finished && id in states[i].taken
      && (states[i].accepted[id] == -1 || states[i].accepted[id] == states[i].taken[id])
  {
    RunKeepsInv(states, steps, i);
    var s := states[i];
    assert s.running.Keys == {} && s.leaving.Keys == {};
  }

  /** And it is observed true as soon as that is so: the stop has been requested, every accepted task has finished, and
      no worker has still to count down. */
  lemma StoppingExactly(states: seq<System>, steps: seq<Step>, i: nat)
    requires Run(states, steps) && i < |states|
    ensures Stopping(states[i]) <==>
      && (exists k :: 0 <= k < i && steps[k] == RequestStop)
      && (forall id :: id in states[i].accepted ==> id in states[i].finished)
      && states[i].leaving == map[]
  {
    RunKeepsInv(states, steps, i);
    StopRequestedExactly(states, steps, i);
    if Stopping(states[i]) {
      StoppingMeansAllDone(states, steps, i);
    } else if (forall id :: id in states[i].accepted ==> id in states[i].finished) && states[i].leaving == map[] {
      AllFinishedLeavesNothing(states[i]);
    }
  }

  lemma AllFinishedLeavesNothing(s: System)
    requires Inv(s) && (forall id :: id in s.accepted ==> id in s.finished) && s.leaving == map[]
    ensures s.queue == [] && s.active == 0
  {
    SomeQueued(s.queue);
    assert s.running.Keys == {};
  }

  lemma SomeQueued(queue: seq<Task>)
    ensures queue != [] ==> exists task :: task in queue
  {
    if queue != [] {
      assert queue[0] in queue;
    }
  }

  lemma {:induction false} StopRequestedExactly(states: seq<System>, steps: seq<Step>, i: nat)
    requires Run(states, steps) && i < |states|
    ensures states[i].stopRequested <==> exists k :: 0 <= k < i && steps[k] == RequestStop
  {
    if i > 0 {
      StopRequestedExactly(states, steps, i - 1);
      assert states[i].stopRequested <==> states[i - 1].stopRequested || steps[i - 1] == RequestStop;
    }
  }

  // ----- first in, first out -----

  /** `x` is queued in front of `y`. */
  ghost predicate Ahead(queue: seq<Task>, x: Task, y: Task) {
    exists a, b :: 0 <= a < b < |queue| && queue[a] == x && queue[b] == y
  }

  lemma AheadInRest(queue: seq<Task>, i: nat, x: Task, y: Task)
    requires i < |queue| && Ahead(queue, x, y) && x in Without(queue, i) && y in Without(queue, i)
    requires forall a, b :: 0 <= a < b < |queue| ==> queue[a].id != queue[b].id
    ensures Ahead(Without(queue, i), x, y)
  {
    var a, b :| 0 <= a < b < |queue| && queue[a] == x && queue[b] == y;
    WithoutMembers(queue, i);
    var q, a', b' := Without(queue, i), if a < i then a else a - 1, if b < i then b else b - 1;
    assert a != i && b != i;
    assert q[a'] == x && q[b'] == y;
  }

  lemma AheadInLonger(queue: seq<Task>, task: Task, x: Task, y: Task)
    requires Ahead(queue, x, y)
    ensures Ahead(queue + [task], x, y)
  {
    var a, b :| 0 <= a < b < |queue| && queue[a] == x && queue[b] == y;
    assert (queue + [task])[a] == x && (queue + [task])[b] == y;
  }

  /** Both tasks keep their order while both are queued, and a task that has left does not come back. */
  lemma OrderIsKept(s: System, e: Step, x: Task, y: Task)
    requires Inv(s) && Enabled(s, e) && Ahead(s.queue, x, y)
    ensures var q := Apply(s, e).queue; x in q && y in q ==> Ahead(q, x, y)
  {
    if e.Submit? {
      AheadInLonger(s.queue, e.task, x, y);
    } else if e.TakeTask? && FirstFor(s.queue, e.t) < |s.queue| && x in Apply(s, e).queue && y in Apply(s, e).queue {
      AheadInRest(s.queue, FirstFor(s.queue, e.t), x, y);
    }
  }

  lemma GoneForGood(s: System, e: Step, x: Task)
    requires Inv(s) && Enabled(s, e) && x.id in s.accepted && x !in s.queue
    ensures x !in Apply(s, e).queue
  {
    if e.TakeTask? && FirstFor(s.queue, e.t) < |s.queue| {
      WithoutMembers(s.queue, FirstFor(s.queue, e.t));
    }
  }

  lemma {:induction false} AheadOrGone(states: seq<System>, steps: seq<Step>, i: nat, j: nat, x: Task, y: Task)
    requires Run(states, steps) && i <= j < |states| && Ahead(states[i].queue, x, y)
    ensures x.id in states[j].accepted && y.id in states[j].accepted
    ensures x in states[j].queue && y in states[j].queue ==> Ahead(states[j].queue, x, y)
    decreases j
  {
    if i == j {
      RunKeepsInv(states, steps, i);
      assert x in states[i].queue && y in states[i].queue;
    } else {
      AheadOrGone(states, steps, i, j - 1, x, y);
      RunKeepsInv(states, steps, j - 1);
      if x !in states[j - 1].queue {
        GoneForGood(states[j - 1], steps[j - 1], x);
      } else if y !in states[j - 1].queue {
        GoneForGood(states[j - 1], steps[j - 1], y);
      } else {
        OrderIsKept(states[j - 1], steps[j - 1], x, y);
      }
    }
  }

  /** No task is overtaken: when a worker takes `y`, no task that it may run and that was queued in front of `y` is
      still waiting. */
  lemma FirstInFirstOut(states: seq<System>, steps: seq<Step>, i: nat, j: nat, x: Task, y: Task)
    requires Run(states, steps) && i <= j < |steps| && Ahead(states[i].queue, x, y)
    requires Takes(states[j], steps[j], y.id) && (x.pin == -1 || x.pin == steps[j].t) && y in states[j].queue
    ensures x !in states[j].queue
  {
    AheadOrGone(states, steps, i, j, x, y);
    RunKeepsInv(states, steps, j);
    FirstIsNotBehind(states[j].queue, steps[j].t, x, y);
  }

  lemma FirstIsNotBehind(queue: seq<Task>, t: Thread, x: Task, y: Task)
    requires x.pin == -1 || x.pin == t
    ensures Ahead(queue, x, y) ==> exists b :: FirstFor(queue, t) < b < |queue| && queue[b] == y
  {
    if Ahead(queue, x, y) {
      var a, b :| 0 <= a < b < |queue| && queue[a] == x && queue[b] == y;
      assert MayRun(queue[a], t);
    }
  }

  /** A worker runs a task, has finished it, and is idle again once it has counted itself down. */
  lemma WorkInFull(s: System, t: Thread)
    requires Inv(s)
    ensures t in s.running ==> var q := Apply(s, FinishTask(t));
      && t !in q.running && t in q.leaving && q.finished == s.finished + {s.running[t].id}
      && q.active == s.active && q.queue == s.queue
    ensures t in s.leaving ==> var q := Apply(s, CountDown(t));
      t !in q.running && t !in q.leaving && q.active == s.active - 1 && q.queue == s.queue && q.finished == s.finished
  {
  }

  /** A submitted task goes to the end of the queue. */
  lemma SubmittedLast(s: System, submitter: Option<Thread>, task: Task)
    requires Enabled(s, Submit(submitter, task))
    ensures var q := Apply(s, Submit(submitter, task)).queue;
      |q| == |s.queue| + 1 && q[|s.queue|] == task && q[..|s.queue|] == s.queue
    ensures forall x :: x in s.queue ==> Ahead(Apply(s, Submit(submitter, task)).queue, x, task)
  {
    var q := Apply(s, Submit(submitter, task)).queue;
    forall x | x in s.queue ensures Ahead(q, x, task) {
      var a :| 0 <= a < |s.queue| && s.queue[a] == x;
      assert q[a] == x && q[|s.queue|] == task;
    }
  }

  /** From then on, if only running tasks submit tasks, the queue stays empty and nothing is ever active again. */
  lemma {:induction false} StoppingIsForEver(states: seq<System>, steps: seq<Step>, i: nat, j: nat)
    requires Run(states, steps) && i <= j < |states| && Stopping(states[i])
    requires forall k :: i <= k < |steps| && steps[k].Submit? ==> steps[k].submitter.Some?
    ensures Stopping(states[j]) && states[j].accepted == states[i].accepted
    decreases j
  {
    if i < j {
      StoppingIsForEver(states, steps, i, j - 1);
      StoppingMeansAllDone(states, steps, j - 1);
    }
  }

  lemma OneMoreStep(states: seq<System>, steps: seq<Step>, e: Step) returns (states': seq<System>, steps': seq<Step>)
    requires Run(states, steps) && Enabled(states[|steps|], e)
    ensures states' == states + [Apply(states[|steps|], e)] && steps' == steps + [e] && Run(states', steps')
  {
    states', steps' := states + [Apply(states[|steps|], e)], steps + [e];
  }

  lemma PinnedTaskIsPassedOver(id: nat, t: Thread, u: Thread) returns (states: seq<System>, steps: seq<Step>)
    requires t != u
    ensures Run(states, steps) && |steps| == 3 && steps[1] == TakeTask(u) && steps[2] == TakeTask(t)
    ensures states[2].queue == [Task(id, t)]
    ensures states[3] == System([], 1, false, map[t := Task(id, t)], map[], map[id := t], map[id := t], {})
  {
    var task := Task(id, t);
    states, steps := [IDLE_SYSTEM], [];
    states, steps := OneMoreStep(states, steps, Submit(None, task));
    assert states[1] == System([task], 0, false, map[], map[], map[id := t], map[], {});
    states, steps := OneMoreStep(states, steps, TakeTask(u));
    assert FirstFor([task], u) == 1 && states[2] == states[1];
    assert Without([task], 0) == [];
    states, steps := OneMoreStep(states, steps, TakeTask(t));
  }

  /** A run to the end: a task pinned to `t` is passed over by `u`, taken by `t`, and once it has finished and the
      stop has been requested, `stopping` is observed true. */
  lemma RunToTheEnd(id: nat, t: Thread, u: Thread) returns (states: seq<System>, steps: seq<Step>)
    requires t != u
    ensures Run(states, steps) && |steps| == 6 && steps[1] == TakeTask(u) && steps[2] == TakeTask(t)
    ensures states[2].queue == [Task(id, t)] && states[3].running == map[t := Task(id, t)]
    ensures !Stopping(states[5]) && Stopping(states[6]) && states[6].finished == {id}
  {
    states, steps := PinnedTaskIsPassedOver(id, t, u);
    states, steps := OneMoreStep(states, steps, FinishTask(t));
    assert states[4] == System([], 1, false, map[], map[t := Task(id, t)], map[id := t], map[id := t], {id});
    states, steps := OneMoreStep(states, steps, CountDown(t));
    assert states[5] == System([], 0, false, map[], map[], map[id := t], map[id := t], {id});
    states, steps := OneMoreStep(states, steps, RequestStop);
  }
}
