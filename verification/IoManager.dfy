/** The I/O manager's objects: one context a descriptor, changed in place, and the calls on the registry. What
    `epoll_ctl` returns is a parameter. */
module IoManagement {
  import opened Options
  import opened EventRegistry

  class FdContext {
    const fd: nat
    var events: set<Event>
    var read: Option<Task>
    var write: Option<Task>

    function Value(): Slot
      reads this
    {
      Slot(events, read, write)
    }

    constructor (fd: nat)
      ensures this.fd == fd && Value() == EMPTY_SLOT
    {
      this.fd, events, read, write := fd, {}, None, None;
    }

    method ResetEventContext(e: Event)
      modifies this
      ensures Value() == if e == READ then old(Value()).(read := None) else old(Value()).(write := None)
    {
      if e == READ {
        read := None;
      } else {
        write := None;
      }
    }

    method SetEventContext(e: Event, task: Task)
      modifies this
      ensures Value() == Arm(old(Value()), e, task)
    {
      events := events + {e};
      if e == READ {
        read := Some(task);
      } else {
        write := Some(task);
      }
    }

    method RemoveEvent(e: Event)
      modifies this
      ensures Value() == Disarm(old(Value()), {e})
    {
      events := events - {e};
      ResetEventContext(e);
    }

    /** Deletes the event and gives up its task, which goes to the scheduler kept in its context. `None` is a context
        without a scheduler: the call through the null pointer does not return. */
    method TriggerEvent(e: Event) returns (task: Option<Task>)
      modifies this
      ensures Value() == Disarm(old(Value()), {e}) && task == old(Value()).Armed(e)
    {
      events := events - {e};
      task := if e == READ then read else write;
      ResetEventContext(e);
    }
  }

  class IoManager {
    var contexts: seq<FdContext>
    var interest: map<nat, set<Event>>
    var pending: int
    var handed: seq<Registration>
    ghost var added: multiset<Registration>
    ghost var dropped: seq<Registration>

    ghost function Slots(): seq<Slot>
      reads this`contexts, contexts
    {
      var cs := contexts;
      seq(|cs|, i requires 0 <= i < |cs| reads cs => cs[i].Value())
    }

    ghost function State(): Registry
      reads this, contexts
    {
      Registry(Slots(), interest, pending, handed, added, dropped)
    }

    ghost predicate Separate()
      reads this`contexts
    {
      && (forall i :: 0 <= i < |contexts| ==> contexts[i].fd == i)
      && (forall i, j :: 0 <= i < j < |contexts| ==> contexts[i] != contexts[j])
    }

    ghost predicate Valid()
      reads this, contexts
    {
      Separate() && Inv(State())
    }

    constructor ()
      ensures Valid() && State() == NewRegistry() && fresh(contexts)
    {
      contexts, interest, pending, handed, added, dropped := [], map[], 0, [], multiset{}, [];
      new;
      ContextResize(INITIAL_SIZE);
      NewRegistryInv();
      assert Slots() == EmptySlots(INITIAL_SIZE);
    }

    /** The table has kept its contexts and otherwise consists of new ones. */
    twostate predicate Extends(before: seq<FdContext>)
      reads this`contexts
    {
      before <= contexts && forall i :: |before| <= i < |contexts| ==> fresh(contexts[i])
    }

    method AppendContext()
      requires Separate()
      modifies this`contexts
      ensures Separate() && |contexts| == |old(contexts)| + 1 && old(contexts) <= contexts
      ensures fresh(contexts[|old(contexts)|]) && contexts[|old(contexts)|].Value() == EMPTY_SLOT
    {
      var c := new FdContext(|contexts|);
      contexts := contexts + [c];
    }

    method ContextResize(size: nat)
      requires Separate()
      modifies this`contexts
      ensures Separate() && Slots() == Resized(old(Slots()), size)
      ensures |old(contexts)| <= size ==> Extends(old(contexts))
    {
      if size <= |contexts| {
        contexts := contexts[..size];
      } else {
        Grow(size);
      }
    }

    method Grow(size: nat)
      requires Separate() && |contexts| < size
      modifies this`contexts
      ensures Separate() && Extends(old(contexts))
      ensures Slots() == old(Slots()) + EmptySlots(size - |old(contexts)|)
    {
      ghost var before := Slots();
      ghost var n := |contexts|;
      while |contexts| < size
        invariant Separate() && n <= |contexts| <= size
        invariant Extends(old(contexts))
        invariant forall i :: n <= i < |contexts| ==> contexts[i].Value() == EMPTY_SLOT
        decreases size - |contexts|
      {
        AppendContext();
      }
      assert Slots() == before + EmptySlots(|contexts| - n);
    }

    /** `epoll_ctl`, which must be a call the kernel accepts; `ok` says whether it succeeds all the same. */
    method EpollCtl(op: CtlOp, fd: nat, mask: set<Event>, ok: bool)
      requires LegalCtl(interest, op, fd)
      modifies this`interest
      ensures interest == if ok then Ctl(old(interest), op, fd, mask) else old(interest)
    {
      if ok {
        interest := if op == CtlDel then interest - {fd} else interest[fd := mask];
      }
    }

    method FindContext(fd: nat)
      requires Separate() && INITIAL_SIZE <= |contexts|
      modifies this`contexts
      ensures Separate() && fd < |contexts| && State() == Resize(old(State()), fd)
      ensures Extends(old(contexts))
    {
      if fd >= |contexts| {
        ContextResize(fd * 3 / 2);
      }
    }

    /** Puts the new event into the descriptor's context. */
    method StoreEvent(fd: nat, e: Event, task: Task)
      requires Separate() && fd < |contexts|
      modifies contexts[fd]
      ensures Slots() == old(Slots())[fd := Arm(old(Slots()[fd]), e, task)]
    {
      contexts[fd].SetEventContext(e, task);
    }

    method RegisterEvent(fd: nat, e: Event, task: Task, ok: bool) returns (rc: int)
      requires Separate() && fd < |contexts| && LegalCtl(interest, AddOp(Slots()[fd].events), fd)
      modifies this, contexts[fd]
      ensures Separate() && contexts == old(contexts)
      ensures if e in old(Slots()[fd].events) || !ok then rc == -1 && State() == old(State())
        else rc == 0 && State() == Register(old(State()), fd, e, task)
    {
      var events := contexts[fd].events;
      if e in events {
        return -1;
      }
      EpollCtl(if events != {} then CtlMod else CtlAdd, fd, events + {e}, ok);
      if !ok {
        return -1;
      }
      pending := pending + 1;
      StoreEvent(fd, e, task);
      added := added + multiset{Registration(fd, e, task)};
      return 0;
    }

    method FindAndRegister(fd: nat, e: Event, task: Task, ok: bool) returns (rc: int)
      requires Separate() && INITIAL_SIZE <= |contexts|
      requires LegalCtl(interest, AddOp(Resize(State(), fd).slots[fd].events), fd)
      modifies this, contexts
      ensures Separate() && Extends(old(contexts))
      ensures (State(), rc) == EventRegistry.AddEvent(old(State()), fd, e, task, ok)
    {
      ghost var before := contexts;
      FindContext(fd);
      if fd < |before| {
        assert contexts[fd] == before[fd];
      }
      rc := RegisterEvent(fd, e, task, ok);
    }

    method AddEvent(fd: nat, e: Event, task: Task, ok: bool) returns (rc: int)
      requires Valid()
      modifies this, contexts
      ensures Valid() && Extends(old(contexts))
      ensures (State(), rc) == EventRegistry.AddEvent(old(State()), fd, e, task, ok)
    {
      ResizeKeepsInv(State(), fd);
      AddKeepsInv(State(), fd, e, task, ok);
      ControlCallsAreLegal(Resize(State(), fd), fd, {});
      rc := FindAndRegister(fd, e, task, ok);
    }

    /** Triggers `e` if it is in `evs`. `fault`: its context has no scheduler. */
    method TriggerIf(fd: nat, e: Event, evs: set<Event>) returns (fault: bool)
      requires Separate() && fd < |contexts|
      modifies this`pending, this`handed, contexts[fd]
      ensures fault <==> Unarmed(old(Slots()[fd]), evs * {e})
      ensures Slots() == old(Slots())[fd := Disarm(old(Slots()[fd]), evs * {e})]
      ensures !fault ==> pending == old(pending) - |evs * {e}|
      ensures !fault ==> handed == old(handed) + RegistrationsOf(fd, old(Slots()[fd]), evs * {e})
    {
      if e !in evs {
        assert evs * {e} == {} && Disarm(Slots()[fd], {}) == Slots()[fd];
        return false;
      }
      assert evs * {e} == {e};
      var task := contexts[fd].TriggerEvent(e);
      if task == None {
        return true;
      }
      handed := handed + [Registration(fd, e, task.value)];
      pending := pending - 1;
      return false;
    }

    lemma SplitEvents(evs: set<Event>)
      ensures evs == (evs * {READ}) + (evs * {WRITE}) && |evs| == |evs * {READ}| + |evs * {WRITE}|
    {
      forall e | e in evs ensures e in (evs * {READ}) + (evs * {WRITE}) {
        match e case READ => case WRITE =>
      }
      assert evs == (evs * {READ}) + (evs * {WRITE});
    }

    lemma TriggeredInTurn(fd: nat, s: Slot, evs: set<Event>)
      ensures Disarm(Disarm(s, evs * {READ}), evs * {WRITE}) == Disarm(s, evs)
      ensures RegistrationsOf(fd, s, evs * {READ}) + RegistrationsOf(fd, Disarm(s, evs * {READ}), evs * {WRITE})
        == RegistrationsOf(fd, s, evs)
    {
      SplitEvents(evs);
      var r, w := evs * {READ}, evs * {WRITE};
      assert s.events - r - w == s.events - evs;
    }

    /** Schedules the tasks behind `evs`, reading first. */
    method TriggerAll(fd: nat, evs: set<Event>) returns (fault: bool)
      requires Separate() && fd < |contexts|
      modifies this`pending, this`handed, contexts[fd]
      ensures fault <==> Unarmed(old(Slots()[fd]), evs)
      ensures !fault ==>
        && Slots() == old(Slots())[fd := Disarm(old(Slots()[fd]), evs)]
        && pending == old(pending) - |evs|
        && handed == old(handed) + RegistrationsOf(fd, old(Slots()[fd]), evs)
    {
      SplitEvents(evs);
      TriggeredInTurn(fd, Slots()[fd], evs);
      fault := TriggerIf(fd, READ, evs);
      if fault {
        return;
      }
      fault := TriggerIf(fd, WRITE, evs);
    }

    method ForgetEvent(fd: nat, e: Event)
      requires Separate() && fd < |contexts|
      modifies contexts[fd]
      ensures Slots() == old(Slots())[fd := Disarm(old(Slots()[fd]), {e})]
    {
      contexts[fd].RemoveEvent(e);
    }

    /** Takes one event out of the interest set and, if the kernel agrees, forgets its task. */
    method Drop(fd: nat, e: Event, evs: set<Event>, ok: bool)
      requires Separate() && fd < |contexts| && evs == {e}
      requires LegalCtl(interest, RemoveOp(Slots()[fd].events - evs), fd)
      modifies this, contexts[fd]
      ensures Separate() && contexts == old(contexts)
      ensures State() == if ok then Release(old(State()), fd, evs, false) else old(State())
    {
      var left := contexts[fd].events - evs;
      EpollCtl(if left != {} then CtlMod else CtlDel, fd, left, ok);
      if ok {
        Forget(fd, e, evs);
      }
    }

    method Forget(fd: nat, e: Event, evs: set<Event>)
      requires Separate() && fd < |contexts| && evs == {e}
      modifies this`pending, this`dropped, contexts[fd]
      ensures Slots() == old(Slots())[fd := Disarm(old(Slots()[fd]), evs)]
      ensures pending == old(pending) - |evs|
      ensures dropped == old(dropped) + RegistrationsOf(fd, old(Slots()[fd]), evs)
    {
      pending := pending - 1;
      dropped := dropped + RegistrationsOf(fd, Slots()[fd], evs);
      ForgetEvent(fd, e);
    }

    method DelEvent(fd: nat, e: Event, ok: bool) returns (result: bool)
      requires Valid()
      modifies this, contexts
      ensures Valid() && contexts == old(contexts)
      ensures (State(), result) == EventRegistry.DelEvent(old(State()), fd, e, ok)
    {
      if fd >= |contexts| || e !in contexts[fd].events {
        return false;
      }
      ghost var r := State();
      assert r.slots[fd] == contexts[fd].Value() && SlotAgrees(r.slots[fd]);
      ReleaseKeepsInv(r, fd, {e}, false);
      assert e in {e} * r.slots[fd].events;
      ControlCallsAreLegal(r, fd, {e});
      Drop(fd, e, {e}, ok);
      assert EventRegistry.DelEvent(r, fd, e, ok) == (State(), true);
      return true;
    }

    /** Takes `evs` out of the interest set and, if the kernel agrees, schedules their tasks. */
    method HandOver(fd: nat, evs: set<Event>, ok: bool) returns (fault: bool)
      requires Separate() && fd < |contexts|
      requires LegalCtl(interest, RemoveOp(Slots()[fd].events - evs), fd)
      modifies this, contexts[fd]
      ensures Separate() && contexts == old(contexts)
      ensures fault <==> ok && Unarmed(old(Slots()[fd]), evs)
      ensures !fault ==> State() == if ok then Release(old(State()), fd, evs, true) else old(State())
    {
      var left := contexts[fd].events - evs;
      EpollCtl(if left != {} then CtlMod else CtlDel, fd, left, ok);
      fault := false;
      if ok {
        fault := TriggerAll(fd, evs);
      }
    }

    /** In a valid registry, events that are registered may be taken out. */
    lemma MayRelease(fd: nat, evs: set<Event>)
      requires Valid() && fd < |contexts| && evs != {} && evs <= contexts[fd].events
      ensures LegalCtl(interest, RemoveOp(Slots()[fd].events - evs), fd)
      ensures !Unarmed(Slots()[fd], evs) && Inv(Release(State(), fd, evs, true))
    {
      assert State().slots[fd] == contexts[fd].Value() && SlotAgrees(State().slots[fd]);
      assert evs * State().slots[fd].events == evs;
      ControlCallsAreLegal(State(), fd, evs);
      ReleaseKeepsInv(State(), fd, evs, true);
    }

    method CancelEvent(fd: nat, e: Event, ok: bool) returns (result: bool)
      requires Valid()
      modifies this, contexts
      ensures Valid() && contexts == old(contexts)
      ensures (State(), result) == EventRegistry.CancelEvent(old(State()), fd, e, ok)
    {
      if fd >= |contexts| || e !in contexts[fd].events {
        return false;
      }
      MayRelease(fd, {e});
      var _ := HandOver(fd, {e}, ok);
      return true;
    }

    method CancelAll(fd: nat, ok: bool) returns (result: bool)
      requires Valid()
      modifies this, contexts
      ensures Valid() && contexts == old(contexts)
      ensures (State(), result) == EventRegistry.CancelAll(old(State()), fd, ok)
    {
      if fd >= |contexts| || contexts[fd].events == {} {
        return false;
      }
      MayRelease(fd, contexts[fd].events);
      var _ := HandOver(fd, contexts[fd].events, ok);
      return true;
    }

    /** A report that is acted on may be taken out, understood or not. */
    lemma MayReleaseReported(fd: nat, reported: set<Event>, failed: bool)
      requires Valid() && fd < |contexts|
      requires Slots()[fd].events * RealEvents(Slots()[fd], reported, failed) != {}
      ensures var happened := RealEvents(Slots()[fd], reported, failed);
        && LegalCtl(interest, RemoveOp(Slots()[fd].events - happened), fd)
        && (Unarmed(Slots()[fd], happened) <==> !Understood(Slots()[fd], reported, failed))
        && (Understood(Slots()[fd], reported, failed) ==> Inv(Release(State(), fd, happened, true)))
    {
      var r, happened := State(), RealEvents(Slots()[fd], reported, failed);
      assert SlotAgrees(r.slots[fd]);
      assert happened * r.slots[fd].events == r.slots[fd].events * happened;
      ControlCallsAreLegal(r, fd, happened);
      UnarmedExactly(r.slots[fd], reported, failed);
      if Understood(r.slots[fd], reported, failed) {
        ReleaseKeepsInv(r, fd, happened, true);
      }
    }

    /** One report of `epoll_wait`: `failed` is an error or a hang-up. The report is not masked with the registered
        events, so one that names an event deleted meanwhile beside one still registered ends in a fault. */
    method HandleReady(fd: nat, reported: set<Event>, failed: bool, ok: bool) returns (fault: bool)
      requires Valid() && fd < |contexts|
      modifies this, contexts
      ensures contexts == old(contexts)
      ensures fault <==> ok && !Understood(old(contexts[fd].Value()), reported, failed)
      ensures !fault ==> Valid() && State() == Ready(old(State()), fd, reported, failed, ok)
    {
      var c := contexts[fd];
      assert State().slots[fd] == c.Value();
      var happened := if failed then reported + c.events else reported;
      if c.events * happened == {} {
        return false;
      }
      MayReleaseReported(fd, reported, failed);
      fault := HandOver(fd, happened, ok);
    }
  }
}
