/** The I/O event registry as a value: the per-descriptor contexts, the kernel's interest set, the pending counter, and
    the history of registrations. */
module EventRegistry {
  import opened Options

  datatype Event = READ | WRITE

  /** What is to be scheduled when the event happens. */
  datatype Task = Callback(id: nat) | FiberTask(id: nat)

  datatype Registration = Registration(fd: nat, event: Event, task: Task)

  /** One descriptor's context. */
  datatype Slot = Slot(events: set<Event>, read: Option<Task>, write: Option<Task>) {
    function Armed(e: Event): Option<Task> { if e == READ then read else write }
  }

  const EMPTY_SLOT: Slot := Slot({}, None, None)

  function EmptySlots(n: nat): (slots: seq<Slot>)
    ensures |slots| == n && forall i :: 0 <= i < n ==> slots[i] == EMPTY_SLOT
  {
    seq(n, _ => EMPTY_SLOT)
  }

  /** `handed` are the tasks given to the scheduler, in order, each with the registration it came from; `added` and
      `dropped` record the successful registrations and those deleted without being run. */
  datatype Registry = Registry(
    slots: seq<Slot>, interest: map<nat, set<Event>>, pending: int,
    handed: seq<Registration>, added: multiset<Registration>, dropped: seq<Registration>)

  // ----- the kernel's side -----

  datatype CtlOp = CtlAdd | CtlMod | CtlDel

  /** What the kernel demands: ADD of an absent descriptor, MOD and DEL of a present one. */
  predicate LegalCtl(interest: map<nat, set<Event>>, op: CtlOp, fd: nat) {
    if op == CtlAdd then fd !in interest else fd in interest
  }

  function Ctl(interest: map<nat, set<Event>>, op: CtlOp, fd: nat, mask: set<Event>): map<nat, set<Event>> {
    if op == CtlDel then interest - {fd} else interest[fd := mask]
  }

  function AddOp(events: set<Event>): CtlOp { if events != {} then CtlMod else CtlAdd }

  function RemoveOp(left: set<Event>): CtlOp { if left != {} then CtlMod else CtlDel }

  // ----- operations -----

  const INITIAL_SIZE: nat := 32

  function NewRegistry(): Registry {
    Registry(EmptySlots(INITIAL_SIZE), map[], 0, [], multiset{}, [])
  }

  /** `std::vector::resize`, with an empty context for every new entry. */
  function Resized(slots: seq<Slot>, size: nat): seq<Slot> {
    if size <= |slots| then slots[..size] else slots + EmptySlots(size - |slots|)
  }

  /** A table too small for the descriptor is resized to one and a half times the descriptor, rounded down. */
  function Resize(r: Registry, fd: nat): Registry {
    if fd < |r.slots| then r else r.(slots := Resized(r.slots, fd * 3 / 2))
  }

  function Arm(s: Slot, e: Event, task: Task): Slot {
    if e == READ then s.(events := s.events + {e}, read := Some(task))
    else s.(events := s.events + {e}, write := Some(task))
  }

  function Disarm(s: Slot, evs: set<Event>): Slot {
    Slot(s.events - evs, if READ in evs then None else s.read, if WRITE in evs then None else s.write)
  }

  function Register(r: Registry, fd: nat, e: Event, task: Task): Registry
    requires fd < |r.slots|
  {
    var s := r.slots[fd];
    r.(slots := r.slots[fd := Arm(s, e, task)],
       interest := Ctl(r.interest, AddOp(s.events), fd, s.events + {e}),
       pending := r.pending + 1,
       added := r.added + multiset{Registration(fd, e, task)})
  }

  /** `ok` is what `epoll_ctl` returns. */
  function AddEvent(r0: Registry, fd: nat, e: Event, task: Task, ok: bool): (Registry, int)
    requires INITIAL_SIZE <= |r0.slots|
  {
    var r := Resize(r0, fd);
    if e in r.slots[fd].events || !ok then (r, -1) else (Register(r, fd, e, task), 0)
  }

  function RegistrationOf(fd: nat, e: Event, task: Option<Task>, evs: set<Event>): seq<Registration> {
    if e in evs && task.Some? then [Registration(fd, e, task.value)] else []
  }

  /** The registrations behind `evs`, reading first. */
  function RegistrationsOf(fd: nat, s: Slot, evs: set<Event>): seq<Registration> {
    RegistrationOf(fd, READ, s.read, evs) + RegistrationOf(fd, WRITE, s.write, evs)
  }

  /** Takes `evs` out of the interest set and the context; their tasks are handed to the scheduler or dropped. */
  function Release(r: Registry, fd: nat, evs: set<Event>, hand: bool): Registry
    requires fd < |r.slots|
  {
    var s := r.slots[fd];
    var regs := RegistrationsOf(fd, s, evs);
    r.(slots := r.slots[fd := Disarm(s, evs)],
       interest := Ctl(r.interest, RemoveOp(s.events - evs), fd, s.events - evs),
       pending := r.pending - |evs|,
       handed := if hand then r.handed + regs else r.handed,
       dropped := if hand then r.dropped else r.dropped + regs)
  }

  /** The second component is the C++ result; a failing `epoll_ctl` gives -1, which as a `bool` is true. */
  function DelEvent(r: Registry, fd: nat, e: Event, ok: bool): (Registry, bool) {
    if fd >= |r.slots| || e !in r.slots[fd].events then (r, false)
    else (if ok then Release(r, fd, {e}, false) else r, true)
  }

  function CancelEvent(r: Registry, fd: nat, e: Event, ok: bool): (Registry, bool) {
    if fd >= |r.slots| || e !in r.slots[fd].events then (r, false)
    else (if ok then Release(r, fd, {e}, true) else r, true)
  }

  function CancelAll(r: Registry, fd: nat, ok: bool): (Registry, bool) {
    if fd >= |r.slots| || r.slots[fd].events == {} then (r, false)
    else (if ok then Release(r, fd, r.slots[fd].events, true) else r, true)
  }

  /** The events a ready descriptor is taken to have: an error or a hang-up stands for everything registered. */
  function RealEvents(s: Slot, reported: set<Event>, failed: bool): set<Event> {
    if failed then reported + s.events else reported
  }

  /** The context of one of the events holds no task, and no scheduler to give one to. */
  predicate Unarmed(s: Slot, evs: set<Event>) {
    (READ in evs && s.read == None) || (WRITE in evs && s.write == None)
  }

  /** A report is understood when it names only registered events, or leads to none. */
  predicate Understood(s: Slot, reported: set<Event>, failed: bool) {
    RealEvents(s, reported, failed) <= s.events || s.events * RealEvents(s, reported, failed) == {}
  }

  function Ready(r: Registry, fd: nat, reported: set<Event>, failed: bool, ok: bool): Registry
    requires fd < |r.slots|
  {
    var happened := RealEvents(r.slots[fd], reported, failed);
    if r.slots[fd].events * happened == {} || !ok then r else Release(r, fd, happened, true)
  }

  // ----- agreement -----

  predicate SlotAgrees(s: Slot) {
    (READ in s.events <==> s.read.Some?) && (WRITE in s.events <==> s.write.Some?)
  }

  predicate InterestAgrees(interest: map<nat, set<Event>>, fd: nat, s: Slot) {
    if s.events == {} then fd !in interest else fd in interest && interest[fd] == s.events
  }

  /** The registrations a context holds armed. */
  function RegsIn(fd: nat, s: Slot): multiset<Registration> { multiset(RegistrationsOf(fd, s, s.events)) }

  function Union(ms: seq<multiset<Registration>>): multiset<Registration> {
    if ms == [] then multiset{} else Union(ms[..|ms| - 1]) + ms[|ms| - 1]
  }

  function Sum(ns: seq<nat>): nat {
    if ns == [] then 0 else Sum(ns[..|ns| - 1]) + ns[|ns| - 1]
  }

  function RegsOfAll(slots: seq<Slot>): seq<multiset<Registration>> {
    seq(|slots|, fd requires 0 <= fd < |slots| => RegsIn(fd, slots[fd]))
  }

  function BitsOfAll(slots: seq<Slot>): seq<nat> {
    seq(|slots|, fd requires 0 <= fd < |slots| => |slots[fd].events|)
  }

  /** All registrations that are armed. */
  function Armed(slots: seq<Slot>): multiset<Registration> { Union(RegsOfAll(slots)) }

  /** All bits that are set. */
  function Bits(slots: seq<Slot>): nat { Sum(BitsOfAll(slots)) }

  ghost predicate SlotsAgree(slots: seq<Slot>) { forall fd :: 0 <= fd < |slots| ==> SlotAgrees(slots[fd]) }

  ghost predicate InterestsAgree(interest: map<nat, set<Event>>, slots: seq<Slot>) {
    && (forall fd :: 0 <= fd < |slots| ==> InterestAgrees(interest, fd, slots[fd]))
    && (forall fd :: fd in interest ==> fd < |slots|)
  }

  /** The four copies agree. */
  ghost predicate Agreement(r: Registry) {
    && INITIAL_SIZE <= |r.slots|
    && SlotsAgree(r.slots)
    && InterestsAgree(r.interest, r.slots)
    && r.pending == Bits(r.slots)
  }

  /** Every registration is still armed, or was dropped, or was handed over - and only once. */
  ghost predicate Conserved(r: Registry) {
    r.added == Armed(r.slots) + multiset(r.dropped) + multiset(r.handed)
  }

  ghost predicate Inv(r: Registry) { Agreement(r) && Conserved(r) }

  // ----- how the sums change -----

  lemma {:induction false} SumChange(ns: seq<nat>, i: nat, n: nat)
    requires i < |ns|
    ensures Sum(ns[i := n]) + ns[i] == Sum(ns) + n
  {
    var k := |ns| - 1;
    if i < k {
      SumChange(ns[..k], i, n);
      assert ns[i := n][..k] == ns[..k][i := n];
    } else {
      assert ns[i := n][..k] == ns[..k];
    }
  }

  lemma {:induction false} UnionChange(ms: seq<multiset<Registration>>, i: nat, m: multiset<Registration>)
    requires i < |ms|
    ensures Union(ms[i := m]) + ms[i] == Union(ms) + m
  {
    var k := |ms| - 1;
    if i < k {
      UnionChange(ms[..k], i, m);
      assert ms[i := m][..k] == ms[..k][i := m];
      Swap(Union(ms[..k][i := m]), Union(ms[..k]), ms[i], m, ms[k]);
    } else {
      assert ms[i := m][..k] == ms[..k];
    }
  }

  lemma Swap(a: multiset<Registration>, b: multiset<Registration>, x: multiset<Registration>,
             y: multiset<Registration>, z: multiset<Registration>)
    requires a + x == b + y
    ensures (a + z) + x == (b + z) + y
  {
    assert (a + z) + x == (a + x) + z;
  }

  lemma BitsChange(slots: seq<Slot>, fd: nat, s: Slot)
    requires fd < |slots|
    ensures Bits(slots[fd := s]) + |slots[fd].events| == Bits(slots) + |s.events|
  {
    SumChange(BitsOfAll(slots), fd, |s.events|);
    assert BitsOfAll(slots[fd := s]) == BitsOfAll(slots)[fd := |s.events|];
  }

  lemma RegsOfAllChange(slots: seq<Slot>, fd: nat, s: Slot)
    requires fd < |slots|
    ensures RegsOfAll(slots[fd := s]) == RegsOfAll(slots)[fd := RegsIn(fd, s)]
  {
  }

  lemma ArmedChange(slots: seq<Slot>, fd: nat, s: Slot)
    requires fd < |slots|
    ensures Armed(slots[fd := s]) + RegsIn(fd, slots[fd]) == Armed(slots) + RegsIn(fd, s)
  {
    RegsOfAllChange(slots, fd, s);
    UnionChange(RegsOfAll(slots), fd, RegsIn(fd, s));
  }

  lemma OneMoreSlot(slots: seq<Slot>)
    ensures Bits(slots + [EMPTY_SLOT]) == Bits(slots) && Armed(slots + [EMPTY_SLOT]) == Armed(slots)
  {
    var all := slots + [EMPTY_SLOT];
    assert BitsOfAll(all)[..|slots|] == BitsOfAll(slots);
    assert RegsOfAll(all)[..|slots|] == RegsOfAll(slots);
  }

  lemma {:induction false} EmptySlotsCountNothing(slots: seq<Slot>, all: seq<Slot>)
    requires slots <= all && forall i :: |slots| <= i < |all| ==> all[i] == EMPTY_SLOT
    ensures Bits(all) == Bits(slots) && Armed(all) == Armed(slots)
    decreases |all|
  {
    if |all| == |slots| {
      assert all == slots;
    } else {
      var front := all[..|all| - 1];
      EmptySlotsCountNothing(slots, front);
      OneMoreSlot(front);
      assert all == front + [EMPTY_SLOT];
    }
  }

  lemma GrowthKeepsAgreement(interest: map<nat, set<Event>>, slots: seq<Slot>, more: nat)
    requires SlotsAgree(slots) && InterestsAgree(interest, slots)
    ensures SlotsAgree(slots + EmptySlots(more)) && InterestsAgree(interest, slots + EmptySlots(more))
  {
    var all := slots + EmptySlots(more);
    forall i | 0 <= i < |all| ensures SlotAgrees(all[i]) && InterestAgrees(interest, i, all[i]) {
      if i < |slots| {
        assert all[i] == slots[i];
      } else {
        assert all[i] == EMPTY_SLOT && i !in interest;
      }
    }
  }

  lemma ResizeKeepsInv(r: Registry, fd: nat)
    requires Inv(r)
    ensures Inv(Resize(r, fd)) && fd < |Resize(r, fd).slots|
    ensures r.slots <= Resize(r, fd).slots
  {
    if fd >= |r.slots| {
      var more: nat := fd * 3 / 2 - |r.slots|;
      assert Resize(r, fd) == r.(slots := r.slots + EmptySlots(more));
      EmptySlotsCountNothing(r.slots, r.slots + EmptySlots(more));
      GrowthKeepsAgreement(r.interest, r.slots, more);
    }
  }

  lemma RegsInTurn(fd: nat, s: Slot, evs: set<Event>)
    ensures multiset(RegistrationsOf(fd, s, evs))
      == multiset(RegistrationOf(fd, READ, s.read, evs)) + multiset(RegistrationOf(fd, WRITE, s.write, evs))
  {
  }

  lemma ArmingAddsOne(fd: nat, s: Slot, e: Event, task: Task)
    requires SlotAgrees(s) && e !in s.events
    ensures SlotAgrees(Arm(s, e, task)) && |Arm(s, e, task).events| == |s.events| + 1
    ensures RegsIn(fd, Arm(s, e, task)) == RegsIn(fd, s) + multiset{Registration(fd, e, task)}
  {
    RegsInTurn(fd, s, s.events);
    RegsInTurn(fd, Arm(s, e, task), s.events + {e});
    match e
    case READ =>
      assert RegistrationOf(fd, READ, Some(task), s.events + {e}) == [Registration(fd, READ, task)];
      assert RegistrationOf(fd, WRITE, s.write, s.events + {e}) == RegistrationOf(fd, WRITE, s.write, s.events);
    case WRITE =>
      assert RegistrationOf(fd, WRITE, Some(task), s.events + {e}) == [Registration(fd, WRITE, task)];
      assert RegistrationOf(fd, READ, s.read, s.events + {e}) == RegistrationOf(fd, READ, s.read, s.events);
  }

  /** Replacing one context, and its entry in the interest set with it, keeps agreement elsewhere. */
  lemma OneInterestReplaced(interest: map<nat, set<Event>>, slots: seq<Slot>, fd: nat, s: Slot, op: CtlOp)
    requires InterestsAgree(interest, slots) && fd < |slots|
    requires op == CtlDel <==> s.events == {}
    ensures InterestsAgree(Ctl(interest, op, fd, s.events), slots[fd := s])
  {
    var after := Ctl(interest, op, fd, s.events);
    assert forall i :: i != fd ==> (i in after <==> i in interest);
    var replaced := slots[fd := s];
    forall i | 0 <= i < |replaced| ensures InterestAgrees(after, i, replaced[i]) {
      if i != fd {
        assert InterestAgrees(interest, i, slots[i]);
      }
    }
  }

  lemma RegisterConserves(r: Registry, fd: nat, e: Event, task: Task)
    requires Inv(r) && fd < |r.slots| && e !in r.slots[fd].events
    ensures Conserved(Register(r, fd, e, task)) && Bits(Register(r, fd, e, task).slots) == Bits(r.slots) + 1
  {
    var s, q := r.slots[fd], Register(r, fd, e, task);
    assert SlotAgrees(s);
    ArmingAddsOne(fd, s, e, task);
    BitsChange(r.slots, fd, Arm(s, e, task));
    ArmedChange(r.slots, fd, Arm(s, e, task));
    AddConserves(r.added, Armed(r.slots), RegsIn(fd, s), Armed(q.slots), multiset(r.dropped), multiset(r.handed),
                 multiset{Registration(fd, e, task)});
  }

  lemma RegisterKeepsInv(r: Registry, fd: nat, e: Event, task: Task)
    requires Inv(r) && fd < |r.slots| && e !in r.slots[fd].events
    ensures Inv(Register(r, fd, e, task))
  {
    RegisterConserves(r, fd, e, task);
    OneInterestReplaced(r.interest, r.slots, fd, Arm(r.slots[fd], e, task), AddOp(r.slots[fd].events));
  }

  lemma AddKeepsInv(r0: Registry, fd: nat, e: Event, task: Task, ok: bool)
    requires Inv(r0)
    ensures Inv(AddEvent(r0, fd, e, task, ok).0)
  {
    ResizeKeepsInv(r0, fd);
    var r := Resize(r0, fd);
    if e !in r.slots[fd].events && ok {
      RegisterKeepsInv(r, fd, e, task);
      assert AddEvent(r0, fd, e, task, ok).0 == Register(r, fd, e, task);
    } else {
      assert AddEvent(r0, fd, e, task, ok).0 == r;
    }
  }

  lemma AddConserves(added: multiset<Registration>, armed: multiset<Registration>, before: multiset<Registration>,
                     armed': multiset<Registration>, dropped: multiset<Registration>, handed: multiset<Registration>,
                     one: multiset<Registration>)
    requires added == armed + dropped + handed && armed' + before == armed + (before + one)
    ensures added + one == armed' + dropped + handed
  {
    forall x ensures (added + one)[x] == (armed' + dropped + handed)[x] {
      assert (armed' + before)[x] == (armed + (before + one))[x];
    }
  }

  lemma DisarmingOne(fd: nat, e: Event, task: Option<Task>, events: set<Event>, evs: set<Event>)
    requires evs <= events
    ensures multiset(RegistrationOf(fd, e, task, events))
      == multiset(RegistrationOf(fd, e, if e in evs then None else task, events - evs))
         + multiset(RegistrationOf(fd, e, task, evs))
  {
  }

  lemma Regroup(r: multiset<Registration>, r1: multiset<Registration>, r2: multiset<Registration>,
                w: multiset<Registration>, w1: multiset<Registration>, w2: multiset<Registration>)
    requires r == r1 + r2 && w == w1 + w2
    ensures r + w == (r1 + w1) + (r2 + w2)
  {
  }

  lemma LeftAndGone(events: set<Event>, evs: set<Event>)
    requires evs <= events
    ensures |events - evs| + |evs| == |events|
  {
    assert events == (events - evs) + evs;
  }

  lemma DisarmingTakesRegistrations(fd: nat, s: Slot, evs: set<Event>)
    requires evs <= s.events
    ensures RegsIn(fd, s) == RegsIn(fd, Disarm(s, evs)) + multiset(RegistrationsOf(fd, s, evs))
  {
    var d := Disarm(s, evs);
    RegsInTurn(fd, s, s.events);
    RegsInTurn(fd, d, d.events);
    RegsInTurn(fd, s, evs);
    DisarmingOne(fd, READ, s.read, s.events, evs);
    DisarmingOne(fd, WRITE, s.write, s.events, evs);
    Regroup(multiset(RegistrationOf(fd, READ, s.read, s.events)),
            multiset(RegistrationOf(fd, READ, d.read, d.events)), multiset(RegistrationOf(fd, READ, s.read, evs)),
            multiset(RegistrationOf(fd, WRITE, s.write, s.events)),
            multiset(RegistrationOf(fd, WRITE, d.write, d.events)), multiset(RegistrationOf(fd, WRITE, s.write, evs)));
  }

  lemma DisarmingTakesAway(fd: nat, s: Slot, evs: set<Event>)
    requires SlotAgrees(s) && evs <= s.events
    ensures SlotAgrees(Disarm(s, evs)) && |Disarm(s, evs).events| + |evs| == |s.events|
    ensures RegsIn(fd, s) == RegsIn(fd, Disarm(s, evs)) + multiset(RegistrationsOf(fd, s, evs))
  {
    LeftAndGone(s.events, evs);
    DisarmingTakesRegistrations(fd, s, evs);
  }

  /** In a registry that agrees, the events of a report that is acted on have their tasks exactly when the report is
      understood. */
  lemma UnarmedExactly(s: Slot, reported: set<Event>, failed: bool)
    requires SlotAgrees(s)
    ensures s.events * RealEvents(s, reported, failed) != {} && Unarmed(s, RealEvents(s, reported, failed))
      <==> !Understood(s, reported, failed)
  {
    var happened := RealEvents(s, reported, failed);
    if !Unarmed(s, happened) {
      forall e | e in happened ensures e in s.events {
        match e case READ => case WRITE =>
      }
    }
  }

  lemma ReleaseAccounts(r: Registry, fd: nat, evs: set<Event>, hand: bool)
    requires Inv(r) && fd < |r.slots| && evs <= r.slots[fd].events
    ensures Conserved(Release(r, fd, evs, hand)) && Bits(Release(r, fd, evs, hand).slots) == Bits(r.slots) - |evs|
  {
    var s, q := r.slots[fd], Release(r, fd, evs, hand);
    var regs := RegistrationsOf(fd, s, evs);
    assert SlotAgrees(s);
    DisarmingTakesAway(fd, s, evs);
    BitsChange(r.slots, fd, Disarm(s, evs));
    ArmedChange(r.slots, fd, Disarm(s, evs));
    ReleaseConserves(r.added, Armed(r.slots), RegsIn(fd, Disarm(s, evs)), Armed(q.slots), multiset(r.dropped),
                     multiset(r.handed), multiset(regs));
    assert multiset(r.handed + regs) == multiset(r.handed) + multiset(regs);
    assert multiset(r.dropped + regs) == multiset(r.dropped) + multiset(regs);
  }

  lemma ReleaseKeepsSlots(r: Registry, fd: nat, evs: set<Event>, hand: bool)
    requires SlotsAgree(r.slots) && InterestsAgree(r.interest, r.slots) && fd < |r.slots|
    ensures SlotsAgree(Release(r, fd, evs, hand).slots)
    ensures InterestsAgree(Release(r, fd, evs, hand).interest, Release(r, fd, evs, hand).slots)
  {
    var s := r.slots[fd];
    assert SlotAgrees(s) && SlotAgrees(Disarm(s, evs));
    OneInterestReplaced(r.interest, r.slots, fd, Disarm(s, evs), RemoveOp(s.events - evs));
  }

  lemma ReleaseKeepsInv(r: Registry, fd: nat, evs: set<Event>, hand: bool)
    requires Inv(r) && fd < |r.slots| && evs <= r.slots[fd].events
    ensures Inv(Release(r, fd, evs, hand))
  {
    ReleaseAccounts(r, fd, evs, hand);
    ReleaseKeepsSlots(r, fd, evs, hand);
  }

  lemma ReleaseConserves(added: multiset<Registration>, armed: multiset<Registration>, after: multiset<Registration>,
                         armed': multiset<Registration>, dropped: multiset<Registration>,
                         handed: multiset<Registration>, gone: multiset<Registration>)
    requires added == armed + dropped + handed && armed' + (after + gone) == armed + after
    ensures added == armed' + (dropped + gone) + handed && added == armed' + dropped + (handed + gone)
  {
    forall x ensures added[x] == (armed' + dropped + handed + gone)[x] {
      assert (armed' + (after + gone))[x] == (armed + after)[x];
    }
  }

  /** Every control call the registry makes is one the kernel accepts in the current interest set: an ADD exactly for a
      descriptor that is absent from it, a DEL exactly when nothing is left of a present one. */
  lemma ControlCallsAreLegal(r: Registry, fd: nat, evs: set<Event>)
    requires Agreement(r) && fd < |r.slots|
    ensures LegalCtl(r.interest, AddOp(r.slots[fd].events), fd)
    ensures AddOp(r.slots[fd].events) == if fd in r.interest then CtlMod else CtlAdd
    ensures evs * r.slots[fd].events != {} ==> LegalCtl(r.interest, RemoveOp(r.slots[fd].events - evs), fd)
    ensures evs * r.slots[fd].events != {} ==>
      fd in r.interest && RemoveOp(r.slots[fd].events - evs) == if r.interest[fd] <= evs then CtlDel else CtlMod
  {
    var s := r.slots[fd];
    assert InterestAgrees(r.interest, fd, s);
    assert forall e :: e in s.events && e !in evs ==> e in s.events - evs;
  }

  // ----- what each call does, in full -----

  /** Every other descriptor is as before. */
  ghost predicate OthersUntouched(r: Registry, q: Registry, fd: nat) {
    && |r.slots| <= |q.slots|
    && (forall i :: 0 <= i < |r.slots| && i != fd ==> q.slots[i] == r.slots[i])
    && (forall i :: i != fd ==> (i in q.interest <==> i in r.interest))
    && (forall i :: i in r.interest && i != fd ==> q.interest[i] == r.interest[i])
  }

  /** The descriptor's events, in the table and in the interest set. */
  ghost predicate Registered(r: Registry, fd: nat, events: set<Event>) {
    && fd < |r.slots| && r.slots[fd].events == events
    && if events == {} then fd !in r.interest else fd in r.interest && r.interest[fd] == events
  }

  /** An addition gives -1 and leaves everything as it was, but for the size of the table, exactly if the event is
      registered or the control call fails; else 0, with the event and its task in the descriptor's context. */
  lemma AddInFull(r: Registry, fd: nat, e: Event, task: Task, ok: bool) returns (q: Registry, rc: int)
    requires Agreement(r)
    ensures (q, rc) == AddEvent(r, fd, e, task, ok) && fd < |q.slots| && OthersUntouched(r, q, fd)
    ensures var had: set<Event> := if fd < |r.slots| then r.slots[fd].events else {};
      && rc == (if e in had || !ok then -1 else 0)
      && |q.slots| == (if fd < |r.slots| then |r.slots| else fd * 3 / 2)
      && if rc == 0 then
           && Registered(q, fd, had + {e}) && q.pending == r.pending + 1
           && (if e == READ then q.slots[fd].read else q.slots[fd].write) == Some(task)
           && q.added == r.added + multiset{Registration(fd, e, task)} && q.handed == r.handed
         else
           r.slots <= q.slots && q == r.(slots := q.slots)
  {
    var r' := Resize(r, fd);
    ResizeInFull(r, fd, r');
    q, rc := AddEvent(r, fd, e, task, ok).0, AddEvent(r, fd, e, task, ok).1;
    if rc == 0 {
      assert q == Register(r', fd, e, task);
    }
  }

  /** The table starts with 32 empty contexts; a smaller size cuts it off, a larger one appends empty contexts. */
  lemma TableInFull(slots: seq<Slot>, size: nat)
    ensures |NewRegistry().slots| == 32 && forall i :: 0 <= i < 32 ==> NewRegistry().slots[i].events == {}
    ensures |Resized(slots, size)| == size
    ensures forall i :: 0 <= i < size ==>
      Resized(slots, size)[i] == if i < |slots| then slots[i] else Slot({}, None, None)
  {
  }

  lemma ResizeInFull(r: Registry, fd: nat, q: Registry)
    requires INITIAL_SIZE <= |r.slots| && q == Resize(r, fd)
    ensures q == r.(slots := q.slots) && r.slots <= q.slots && fd < |q.slots|
    ensures |q.slots| == (if fd < |r.slots| then |r.slots| else fd * 3 / 2)
    ensures q.slots[fd].events == if fd < |r.slots| then r.slots[fd].events else {}
  {
    if fd >= |r.slots| {
      var more: nat := fd * 3 / 2 - |r.slots|;
      assert q.slots == r.slots + EmptySlots(more);
    }
  }

  /** The tasks of these events, reading first. */
  ghost predicate TasksOf(fd: nat, s: Slot, evs: set<Event>, regs: seq<Registration>)
    requires SlotAgrees(s) && evs <= s.events
  {
    regs == (if READ in evs then [Registration(fd, READ, s.read.value)] else [])
            + (if WRITE in evs then [Registration(fd, WRITE, s.write.value)] else [])
  }

  lemma ReleaseInFull(r: Registry, fd: nat, evs: set<Event>, hand: bool) returns (regs: seq<Registration>)
    requires Agreement(r) && fd < |r.slots| && evs <= r.slots[fd].events && SlotAgrees(r.slots[fd])
    ensures TasksOf(fd, r.slots[fd], evs, regs)
    ensures var q := Release(r, fd, evs, hand);
      && Registered(q, fd, r.slots[fd].events - evs) && OthersUntouched(r, q, fd)
      && q.pending == r.pending - |evs| && q.added == r.added
      && q.handed == r.handed + (if hand then regs else []) && q.dropped == r.dropped + (if hand then [] else regs)
      && q.slots[fd].read == (if READ in evs then None else r.slots[fd].read)
      && q.slots[fd].write == (if WRITE in evs then None else r.slots[fd].write)
  {
    regs := RegistrationsOf(fd, r.slots[fd], evs);
    assert r.handed + [] == r.handed && r.dropped + [] == r.dropped;
  }

  /** What a call leaves when it takes `evs` away from the descriptor, handing their tasks over or dropping them. */
  ghost predicate TakenAway(r: Registry, q: Registry, fd: nat, evs: set<Event>, hand: bool) {
    && fd < |r.slots| && SlotAgrees(r.slots[fd]) && evs <= r.slots[fd].events
    && Registered(q, fd, r.slots[fd].events - evs) && OthersUntouched(r, q, fd)
    && q.pending == r.pending - |evs| && q.added == r.added
    && q.slots[fd].read == (if READ in evs then None else r.slots[fd].read)
    && q.slots[fd].write == (if WRITE in evs then None else r.slots[fd].write)
    && exists regs :: TasksOf(fd, r.slots[fd], evs, regs)
         && q.handed == r.handed + (if hand then regs else []) && q.dropped == r.dropped + (if hand then [] else regs)
  }

  lemma ReleaseTakesAway(r: Registry, fd: nat, evs: set<Event>, hand: bool)
    requires Agreement(r) && fd < |r.slots| && evs <= r.slots[fd].events
    ensures TakenAway(r, Release(r, fd, evs, hand), fd, evs, hand)
  {
    assert SlotAgrees(r.slots[fd]);
    var regs := ReleaseInFull(r, fd, evs, hand);
  }

  /** `delEvent` drops the event's task, `cancelEvent` hands it over, `cancelAll` hands over all of them; each answers
      false exactly when there is nothing to take away, and a failing control call changes nothing. */
  lemma RemovalsInFull(r: Registry, fd: nat, e: Event, ok: bool)
    requires Agreement(r)
    ensures var had: set<Event> := if fd < |r.slots| then r.slots[fd].events else {};
      && (DelEvent(r, fd, e, ok).1 <==> e in had) && (CancelEvent(r, fd, e, ok).1 <==> e in had)
      && (CancelAll(r, fd, ok).1 <==> had != {})
      && (if e in had && ok then TakenAway(r, DelEvent(r, fd, e, ok).0, fd, {e}, false)
          else DelEvent(r, fd, e, ok).0 == r)
      && (if e in had && ok then TakenAway(r, CancelEvent(r, fd, e, ok).0, fd, {e}, true)
          else CancelEvent(r, fd, e, ok).0 == r)
      && (if had != {} && ok then TakenAway(r, CancelAll(r, fd, ok).0, fd, had, true)
          else CancelAll(r, fd, ok).0 == r)
  {
    if fd < |r.slots| {
      if e in r.slots[fd].events {
        ReleaseTakesAway(r, fd, {e}, false);
        ReleaseTakesAway(r, fd, {e}, true);
      }
      ReleaseTakesAway(r, fd, r.slots[fd].events, true);
    }
  }

  /** A report of registered events takes exactly these away and hands their tasks over; with an error or a hang-up it
      is all registered ones, whatever else is reported. Nothing happens when nothing is registered or reported, or
      when the control call fails. */
  lemma ReadyInFull(r: Registry, fd: nat, reported: set<Event>, failed: bool, ok: bool)
    requires Agreement(r) && fd < |r.slots| && reported <= r.slots[fd].events
    ensures var q, had := Ready(r, fd, reported, failed, ok), r.slots[fd].events;
      if !ok || had == {} || (!failed && reported == {}) then q == r
      else if failed then TakenAway(r, q, fd, had, true) && q.slots[fd].events == {} && fd !in q.interest
      else TakenAway(r, q, fd, reported, true)
  {
    var had := r.slots[fd].events;
    assert reported + had == had && had * had == had && had * reported == reported;
    ReleaseTakesAway(r, fd, had, true);
    ReleaseTakesAway(r, fd, reported, true);
  }

  // ----- runs -----

  datatype Call =
    | AddCall(fd: nat, event: Event, task: Task, ok: bool)
    | DelCall(fd: nat, event: Event, ok: bool)
    | CancelCall(fd: nat, event: Event, ok: bool)
    | CancelAllCall(fd: nat, ok: bool)
    | ReadyCall(fd: nat, reported: set<Event>, failed: bool, ok: bool)

  predicate Allowed(r: Registry, c: Call) {
    INITIAL_SIZE <= |r.slots| &&
    (c.ReadyCall? ==> c.fd < |r.slots| && (c.ok ==> Understood(r.slots[c.fd], c.reported, c.failed)))
  }

  function Perform(r: Registry, c: Call): Registry
    requires Allowed(r, c)
  {
    match c
    case AddCall(fd, e, task, ok) => AddEvent(r, fd, e, task, ok).0
    case DelCall(fd, e, ok) => DelEvent(r, fd, e, ok).0
    case CancelCall(fd, e, ok) => CancelEvent(r, fd, e, ok).0
    case CancelAllCall(fd, ok) => CancelAll(r, fd, ok).0
    case ReadyCall(fd, reported, failed, ok) => Ready(r, fd, reported, failed, ok)
  }

  /** What a call other than `addEvent` takes away, if anything. */
  function Taken(r: Registry, c: Call): set<Event>
    requires Allowed(r, c) && !c.AddCall?
  {
    if c.fd >= |r.slots| || !c.ok then {}
    else
      match c
      case DelCall(fd, e, _) => {e} * r.slots[fd].events
      case CancelCall(fd, e, _) => {e} * r.slots[fd].events
      case CancelAllCall(fd, _) => r.slots[fd].events
      case ReadyCall(fd, reported, failed, _) => RealEvents(r.slots[fd], reported, failed) * r.slots[fd].events
  }

  lemma OthersRelease(r: Registry, c: Call)
    requires Allowed(r, c) && !c.AddCall?
    ensures Perform(r, c) == if Taken(r, c) == {} then r else Release(r, c.fd, Taken(r, c), !c.DelCall?)
  {
    if c.ReadyCall? {
      var happened := RealEvents(r.slots[c.fd], c.reported, c.failed);
      assert happened <= r.slots[c.fd].events ==> happened * r.slots[c.fd].events == happened;
      assert r.slots[c.fd].events * happened == happened * r.slots[c.fd].events;
    } else if !c.CancelAllCall? && c.fd < |r.slots| && c.event in r.slots[c.fd].events {
      assert {c.event} * r.slots[c.fd].events == {c.event};
    }
  }

  lemma PerformKeepsInv(r: Registry, c: Call)
    requires Inv(r) && Allowed(r, c)
    ensures Inv(Perform(r, c))
  {
    if c.AddCall? {
      AddKeepsInv(r, c.fd, c.event, c.task, c.ok);
    } else {
      OthersRelease(r, c);
      if Taken(r, c) != {} {
        ReleaseKeepsInv(r, c.fd, Taken(r, c), !c.DelCall?);
      }
    }
  }

  predicate Run(states: seq<Registry>, calls: seq<Call>) {
    && |states| == |calls| + 1 && states[0] == NewRegistry()
    && forall i :: 0 <= i < |calls| ==> Allowed(states[i], calls[i]) && states[i + 1] == Perform(states[i], calls[i])
  }

  lemma NewRegistryInv()
    ensures Inv(NewRegistry())
  {
    EmptySlotsCountNothing([], NewRegistry().slots);
  }

  /** After every call of every serial run, failed control calls included, the four copies agree and every registration
      is accounted for: as many as were added are armed, dropped or handed over, and none is handed over twice. */
  lemma {:induction false} RunKeepsInv(states: seq<Registry>, calls: seq<Call>, i: nat)
    requires Run(states, calls) && i < |states|
    ensures Inv(states[i])
  {
    if i == 0 {
      NewRegistryInv();
    } else {
      RunKeepsInv(states, calls, i - 1);
      PerformKeepsInv(states[i - 1], calls[i - 1]);
    }
  }

  lemma OneMoreCall(states: seq<Registry>, calls: seq<Call>, c: Call, r: Registry)
    requires Run(states, calls) && Allowed(states[|calls|], c) && r == Perform(states[|calls|], c)
    ensures Run(states + [r], calls + [c])
  {
  }

  /** A report that was right when `epoll_wait` made it need not be when the handler takes the lock: here the writing
      event is deleted in between. */
  lemma ReportOvertaken(fd: nat, reading: Task, writing: Task)
    returns (states: seq<Registry>, calls: seq<Call>, reported: set<Event>)
    requires fd < INITIAL_SIZE
    ensures Run(states, calls) && |states| == 4 && calls[2] == DelCall(fd, WRITE, true)
    ensures |states[2].slots| == |states[3].slots| == INITIAL_SIZE
    ensures Understood(states[2].slots[fd], reported, false) && !Understood(states[3].slots[fd], reported, false)
  {
    reported := {READ, WRITE};
    var r0 := NewRegistry();
    var r1 := Register(r0, fd, READ, reading);
    var r2 := Register(r1, fd, WRITE, writing);
    var r3 := Release(r2, fd, {WRITE}, false);
    states, calls := [r0], [];
    OneMoreCall(states, calls, AddCall(fd, READ, reading, true), r1);
    states, calls := states + [r1], calls + [AddCall(fd, READ, reading, true)];
    OneMoreCall(states, calls, AddCall(fd, WRITE, writing, true), r2);
    states, calls := states + [r2], calls + [AddCall(fd, WRITE, writing, true)];
    OneMoreCall(states, calls, DelCall(fd, WRITE, true), r3);
    states, calls := states + [r3], calls + [DelCall(fd, WRITE, true)];
    assert r2.slots[fd].events == {READ, WRITE} && r3.slots[fd].events == {READ};
    assert WRITE !in r3.slots[fd].events && READ in r3.slots[fd].events * reported;
  }

  /** In numbers: successful additions = still armed (the pending counter) + dropped + handed over. */
  lemma Accounts(r: Registry)
    requires Inv(r)
    ensures |r.added| == r.pending + |r.dropped| + |r.handed|
    ensures multiset(r.handed) <= r.added
  {
    PendingCountsArmed(r.slots);
  }

  lemma {:induction false} PendingCountsArmed(slots: seq<Slot>)
    requires SlotsAgree(slots)
    ensures |Armed(slots)| == Bits(slots)
  {
    if slots != [] {
      var k := |slots| - 1;
      PendingCountsArmed(slots[..k]);
      SlotCountsArmed(k, slots[k]);
      assert RegsOfAll(slots)[..k] == RegsOfAll(slots[..k]);
      assert BitsOfAll(slots)[..k] == BitsOfAll(slots[..k]);
    }
  }

  lemma SlotCountsArmed(fd: nat, s: Slot)
    requires SlotAgrees(s)
    ensures |RegsIn(fd, s)| == |s.events|
  {
    var r: set<Event> := if READ in s.events then {READ} else {};
    var w: set<Event> := if WRITE in s.events then {WRITE} else {};
    forall e | e in s.events ensures e in r + w {
      match e case READ => case WRITE =>
    }
    assert s.events == r + w;
  }
}
