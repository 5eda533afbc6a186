/**
 What each step of the VM pool does to the three parts of its invariant: the books, the
 queues and the facts about every slot.
 */
module PoolSafety {
  import opened Options
  import opened SharedPtr
  import opened Pool
  import M = Machine

  lemma HoldersAdded(held: map<nat, nat>, v: nat, x: nat, y: nat)
    requires v !in held
    ensures |HoldersOfSlot(held[v := x], y)| == |HoldersOfSlot(held, y)| + (if x == y then 1 else 0)
  {
    assert HoldersOfSlot(held[v := x], y) == HoldersOfSlot(held, y) + (if x == y then {v} else {});
  }

  lemma HoldersRemoved(held: map<nat, nat>, v: nat, y: nat)
    requires v in held
    ensures |HoldersOfSlot(held, y)| == |HoldersOfSlot(held - {v}, y)| + (if held[v] == y then 1 else 0)
  {
    assert HoldersOfSlot(held, y) == HoldersOfSlot(held - {v}, y) + (if held[v] == y then {v} else {});
  }

  lemma HeldIsUsed(s: State, v: nat)
    requires v in s.held
    ensures Uses(s.held, s.pending, s.held[v]) > 0
  {
    assert v in HoldersOfSlot(s.held, s.held[v]);
  }

  lemma UnknownIsUnused(s: State, x: nat)
    requires Books(s) && x !in s.slots
    ensures Uses(s.held, s.pending, x) == 0
  {
    assert HoldersOfSlot(s.held, x) == {};
  }

  lemma QueuedAfterEnqueue(prog: Program, node: nat, x: nat, y: nat)
    requires |prog.queues| == NODES && node < NODES
    ensures |Enqueue(prog, node, x).queues| == NODES
    ensures Queued(Enqueue(prog, node, x).queues, y) == Queued(prog.queues, y) + (if x == y then 1 else 0)
  {
  }

  lemma QueuedAfterDequeue(queues: seq<multiset<nat>>, node: nat, x: nat, y: nat)
    requires |queues| == NODES && node < NODES && x in queues[node]
    ensures Queued(queues[node := queues[node] - multiset{x}], y) == Queued(queues, y) - (if x == y then 1 else 0)
  {
  }

  /** A VM about which the step changed nothing stays in order. */
  lemma SameFacts(s: State, s': State, x: nat)
    requires x in s.slots && FactsOk(FactsOf(s, x))
    requires x in s'.slots && s'.slots[x] == s.slots[x]
    requires MainOf(s', s.slots[x].prog) == MainOf(s, s.slots[x].prog)
    requires Queued(QueuesOf(s', s.slots[x].prog), x) == Queued(QueuesOf(s, s.slots[x].prog), x)
    requires Uses(s'.held, s'.pending, x) == Uses(s.held, s.pending, x)
    requires Target(s'.refs, SlotRef(x)) == Target(s.refs, SlotRef(x))
    ensures FactsOk(FactsOf(s', x))
  {
  }

  /** Queueing a VM on its own program leaves every queue with VMs of its own program. */
  lemma EnqueueOwn(s: State, s': State, p: nat, x: nat, node: nat)
    requires Queues(s) && p in s.programs && node < NODES
    requires s'.programs.Keys == s.programs.Keys
    requires QueuesOf(s', p) == Enqueue(s.programs[p], node, x).queues
    requires forall q :: q in s.programs && q != p ==> QueuesOf(s', q) == QueuesOf(s, q)
    requires x in s'.slots && s'.slots[x].prog == p
    requires forall y :: y in s.slots ==> y in s'.slots && s'.slots[y].prog == s.slots[y].prog
    ensures Queues(s')
  {
    assert QueuesOwn(s, p);
    forall q | q in s'.programs ensures QueuesOwn(s', q) {
      assert QueuesOwn(s, q);
      QueuedAfterEnqueue(s.programs[p], node, x, x);
      forall y ensures Queued(QueuesOf(s', q), y) > 0 ==> y in s'.slots && s'.slots[y].prog == q {
        QueuedAfterEnqueue(s.programs[p], node, x, y);
      }
    }
  }

  /** Taking a VM out of a queue leaves every queue with VMs of its own program. */
  lemma DequeueOwn(s: State, s': State, p: nat, x: nat, node: nat)
    requires Queues(s) && p in s.programs && node < |s.programs[p].queues| && x in s.programs[p].queues[node]
    requires s'.programs.Keys == s.programs.Keys
    requires QueuesOf(s', p) == Dequeued(s.programs[p], node, x).queues
    requires forall q :: q in s.programs && q != p ==> QueuesOf(s', q) == QueuesOf(s, q)
    requires forall y :: y in s.slots ==> y in s'.slots && s'.slots[y].prog == s.slots[y].prog
    ensures Queues(s')
  {
    assert QueuesOwn(s, p);
    forall q | q in s'.programs ensures QueuesOwn(s', q) {
      assert QueuesOwn(s, q);
      forall y ensures Queued(QueuesOf(s', q), y) > 0 ==> y in s'.slots && s'.slots[y].prog == q {
        QueuedAfterDequeue(s.programs[p].queues, node, x, y);
      }
    }
  }

  /** Nothing that happens outside the queues affects them, as long as VMs keep their program. */
  lemma QueuesUntouched(s: State, s': State)
    requires Queues(s)
    requires forall q :: q in s'.programs ==> q in s.programs && QueuesOf(s', q) == QueuesOf(s, q)
    requires forall y :: y in s.slots && s.slots[y].prog in s'.programs ==>
               y in s'.slots && s'.slots[y].prog == s.slots[y].prog
    ensures Queues(s')
  {
    forall q | q in s'.programs ensures QueuesOwn(s', q) {
      assert QueuesOwn(s, q);
    }
  }

  /** The invariant does not depend on what is known of resets. */
  lemma JobsIrrelevant(s: State, jobs: Jobs)
    requires Inv(s)
    ensures Inv(s.(jobs := jobs))
  {
    var s' := s.(jobs := jobs);
    forall p | p in s'.programs ensures QueuesOwn(s', p) {
      assert QueuesOwn(s, p);
    }
    forall x | x in s'.slots ensures FactsOk(FactsOf(s', x)) {
      assert FactsOf(s', x) == FactsOf(s, x);
    }
  }

  // ---- Pointer assignments ----

  lemma SetPtrBooks(s: State, h: Holder, t: Option<nat>)
    requires Books(s) && !h.SlotRef?
    requires t.Some? ==> t.value in s.programs
    requires h.Local? && t.Some? ==> h.v !in s.held
    ensures Books(SetPtr(s, h, t))
  {
    AssignExact(s.refs, h, t);
  }

  lemma SetPtrQueues(s: State, h: Holder, t: Option<nat>)
    requires Books(s) && Queues(s) && !h.SlotRef?
    requires t.Some? ==> t.value in s.programs
    requires h.Local? && t.Some? ==> h.v !in s.held
    ensures Queues(SetPtr(s, h, t))
  {
    var s' := SetPtr(s, h, t);
    QueuesUntouched(s, s');
  }

  lemma SetPtrSlots(s: State, h: Holder, t: Option<nat>)
    requires Books(s) && Slots(s) && !h.SlotRef?
    requires t.Some? ==> t.value in s.programs
    requires h.Local? && t.Some? ==> h.v !in s.held
    ensures Slots(SetPtr(s, h, t))
  {
    var s' := SetPtr(s, h, t);
    forall x | x in s'.slots ensures FactsOk(FactsOf(s', x)) {
      TargetAfterAssign(s.refs, h, t, SlotRef(x));
      SameFacts(s, s', x);
    }
  }

  // ---- Initialization ----

  lemma CreateBooks(s: State, v: nat, p: nat, main: M.Vm)
    requires Books(s) && Unused(s, v) && p !in s.programs
    ensures Books(CreateStep(s, v, p, main))
  {
    CreateExact(s.refs, p);
    AssignExact(Refs(s.refs.targets, s.refs.counts[p := 0]), Local(v), Some(p));
  }

  lemma CreateQueues(s: State, v: nat, p: nat, main: M.Vm)
    requires Books(s) && Queues(s) && Unused(s, v) && p !in s.programs
    ensures Queues(CreateStep(s, v, p, main))
  {
    var s' := CreateStep(s, v, p, main);
    forall q | q in s'.programs ensures QueuesOwn(s', q) {
      assert q != p ==> QueuesOwn(s, q);
    }
  }

  lemma CreateSlots(s: State, v: nat, p: nat, main: M.Vm)
    requires Books(s) && Slots(s) && Unused(s, v) && p !in s.programs
    ensures Slots(CreateStep(s, v, p, main))
  {
    var s' := CreateStep(s, v, p, main);
    forall x | x in s'.slots ensures FactsOk(FactsOf(s', x)) {
      TargetAfterAssign(Refs(s.refs.targets, s.refs.counts[p := 0]), Local(v), Some(p), SlotRef(x));
      SameFacts(s, s', x);
    }
  }

  lemma FirstVmBooks(s: State, p: nat, x: nat, maxRegex: nat)
    requires Books(s) && p in s.programs && x !in s.slots
    ensures Books(FirstVmStep(s, p, x, maxRegex))
  {
    UnknownIsUnused(s, x);
  }

  lemma FirstVmQueues(s: State, p: nat, x: nat, maxRegex: nat)
    requires Queues(s) && p in s.programs && x !in s.slots
    ensures Queues(FirstVmStep(s, p, x, maxRegex))
  {
    var s' := FirstVmStep(s, p, x, maxRegex);
    EnqueueOwn(s, s', p, x, 0);
  }

  /** A VM that was just forked is in order. */
  lemma ForkedFacts(f: Facts, p: nat, main: M.Vm, maxRegex: nat, started: bool)
    requires f == Facts(NewSlot(p, main, maxRegex, started), Some(main), if started then 1 else 0, 0, None)
    ensures FactsOk(f)
  {
    M.RecycleCleans(main, main, maxRegex);
  }

  lemma FirstVmFacts(s: State, p: nat, x: nat, maxRegex: nat)
    requires Books(s) && QueuesOwn(s, p) && p in s.programs && x !in s.slots
    ensures FactsOk(FactsOf(FirstVmStep(s, p, x, maxRegex), x))
  {
    QueuedAfterEnqueue(s.programs[p], 0, x, x);
    UnknownIsUnused(s, x);
    ForkedFacts(FactsOf(FirstVmStep(s, p, x, maxRegex), x), p, s.programs[p].main, maxRegex, true);
  }

  lemma FirstVmOther(s: State, p: nat, x: nat, maxRegex: nat, y: nat)
    requires QueuesOwn(s, p) && p in s.programs && y in s.slots && y != x && FactsOk(FactsOf(s, y))
    ensures FactsOk(FactsOf(FirstVmStep(s, p, x, maxRegex), y))
  {
    QueuedAfterEnqueue(s.programs[p], 0, x, y);
    SameFacts(s, FirstVmStep(s, p, x, maxRegex), y);
  }

  lemma FirstVmSlots(s: State, p: nat, x: nat, maxRegex: nat)
    requires Inv(s) && p in s.programs && x !in s.slots
    ensures Slots(FirstVmStep(s, p, x, maxRegex))
  {
    var s' := FirstVmStep(s, p, x, maxRegex);
    assert QueuesOwn(s, p);
    forall y | y in s'.slots ensures FactsOk(FactsOf(s', y)) {
      if y != x {
        FirstVmOther(s, p, x, maxRegex, y);
      } else {
        FirstVmFacts(s, p, x, maxRegex);
      }
    }
  }

  lemma ForkVmBooks(s: State, p: nat, x: nat, maxRegex: nat)
    requires Books(s) && p in s.programs && x !in s.slots
    ensures Books(ForkVmStep(s, p, x, maxRegex))
  {
    UnknownIsUnused(s, x);
  }

  lemma ForkVmQueues(s: State, p: nat, x: nat, maxRegex: nat)
    requires Queues(s) && p in s.programs && x !in s.slots
    ensures Queues(ForkVmStep(s, p, x, maxRegex))
  {
    var s' := ForkVmStep(s, p, x, maxRegex);
    QueuesUntouched(s, s');
  }

  lemma ForkVmFacts(s: State, p: nat, x: nat, maxRegex: nat)
    requires Books(s) && QueuesOwn(s, p) && p in s.programs && x !in s.slots
    ensures FactsOk(FactsOf(ForkVmStep(s, p, x, maxRegex), x))
  {
    UnknownIsUnused(s, x);
    ForkedFacts(FactsOf(ForkVmStep(s, p, x, maxRegex), x), p, s.programs[p].main, maxRegex, false);
  }

  lemma ForkVmSlots(s: State, p: nat, x: nat, maxRegex: nat)
    requires Inv(s) && p in s.programs && x !in s.slots
    ensures Slots(ForkVmStep(s, p, x, maxRegex))
  {
    var s' := ForkVmStep(s, p, x, maxRegex);
    assert QueuesOwn(s, p);
    forall y | y in s'.slots ensures FactsOk(FactsOf(s', y)) {
      if y != x {
        SameFacts(s, s', y);
      } else {
        ForkVmFacts(s, p, x, maxRegex);
      }
    }
  }

  lemma ForkReadyBooks(s: State, x: nat, node: nat)
    requires Books(s) && x in s.slots && !s.slots[x].started && node < NODES
    ensures Books(ForkReadyStep(s, x, node))
  {
  }

  lemma ForkReadyQueues(s: State, x: nat, node: nat)
    requires Queues(s) && x in s.slots && s.slots[x].prog in s.programs && node < NODES
    ensures Queues(ForkReadyStep(s, x, node))
  {
    var s' := ForkReadyStep(s, x, node);
    EnqueueOwn(s, s', s.slots[x].prog, x, node);
  }

  lemma ForkReadyFacts(s: State, x: nat, node: nat, y: nat)
    requires x in s.slots && !s.slots[x].started && s.slots[x].prog in s.programs && node < NODES
    requires QueuesOwn(s, s.slots[x].prog) && y in s.slots && FactsOk(FactsOf(s, y))
    ensures FactsOk(FactsOf(ForkReadyStep(s, x, node), y))
  {
    QueuedAfterEnqueue(s.programs[s.slots[x].prog], node, x, y);
    if y != x {
      SameFacts(s, ForkReadyStep(s, x, node), y);
    }
  }

  lemma ForkReadySlots(s: State, x: nat, node: nat)
    requires Inv(s) && x in s.slots && !s.slots[x].started && node < NODES
    ensures Slots(ForkReadyStep(s, x, node))
  {
    assert QueuesOwn(s, s.slots[x].prog);
    forall y | y in s.slots ensures FactsOk(FactsOf(ForkReadyStep(s, x, node), y)) {
      ForkReadyFacts(s, x, node, y);
    }
  }

  lemma InitBooks(s: State, p: nat, initializing: bool, completion: Completion, lost: bool)
    requires Books(s) && p in s.programs
    ensures Books(InitStep(s, p, initializing, completion, lost))
  {
  }

  lemma InitQueues(s: State, p: nat, initializing: bool, completion: Completion, lost: bool)
    requires Queues(s) && p in s.programs
    ensures Queues(InitStep(s, p, initializing, completion, lost))
  {
    var s' := InitStep(s, p, initializing, completion, lost);
    QueuesUntouched(s, s');
  }

  lemma InitSlots(s: State, p: nat, initializing: bool, completion: Completion, lost: bool)
    requires Books(s) && Slots(s) && p in s.programs
    ensures Slots(InitStep(s, p, initializing, completion, lost))
  {
    var s' := InitStep(s, p, initializing, completion, lost);
    forall y | y in s'.slots ensures FactsOk(FactsOf(s', y)) {
      SameFacts(s, s', y);
    }
  }

  // ---- Requests ----

  lemma GuestBooks(s: State, v: nat, vm: M.Vm)
    requires Books(s) && v in s.held
    requires vm.resetNeeded == s.slots[s.held[v]].vm.resetNeeded && vm.softReset == s.slots[s.held[v]].vm.softReset
    ensures Books(GuestStep(s, v, vm))
  {
  }

  lemma GuestQueues(s: State, v: nat, vm: M.Vm)
    requires Queues(s) && v in s.held && s.held[v] in s.slots
    ensures Queues(GuestStep(s, v, vm))
  {
    var s' := GuestStep(s, v, vm);
    QueuesUntouched(s, s');
  }

  lemma GuestSlots(s: State, v: nat, vm: M.Vm)
    requires Slots(s) && v in s.held && s.held[v] in s.slots
    requires vm.resetNeeded == s.slots[s.held[v]].vm.resetNeeded && vm.softReset == s.slots[s.held[v]].vm.softReset
    ensures Slots(GuestStep(s, v, vm))
  {
    var s' := GuestStep(s, v, vm);
    forall y | y in s'.slots ensures FactsOk(FactsOf(s', y)) {
      if y != s.held[v] {
        SameFacts(s, s', y);
      } else {
        HeldIsUsed(s, v);
      }
    }
  }

  lemma ErrorBooks(s: State, v: nat)
    requires Books(s) && v in s.held
    ensures Books(ErrorStep(s, v))
  {
  }

  lemma ErrorQueues(s: State, v: nat)
    requires Queues(s) && v in s.held && s.held[v] in s.slots
    ensures Queues(ErrorStep(s, v))
  {
    var s' := ErrorStep(s, v);
    QueuesUntouched(s, s');
  }

  lemma ErrorSlots(s: State, v: nat)
    requires Slots(s) && v in s.held && s.held[v] in s.slots
    ensures Slots(ErrorStep(s, v))
  {
    var s' := ErrorStep(s, v);
    forall y | y in s'.slots ensures FactsOk(FactsOf(s', y)) {
      if y != s.held[v] {
        SameFacts(s, s', y);
      } else {
        HeldIsUsed(s, v);
      }
    }
  }

  /** A queued VM is in no other place and carries no program reference. */
  lemma QueuedFacts(s: State, p: nat, node: nat, x: nat)
    requires Inv(s) && p in s.programs && node < NODES
    requires |s.programs[p].queues| == NODES && x in s.programs[p].queues[node]
    ensures x in s.slots && s.slots[x].prog == p && s.slots[x].started
    ensures Queued(s.programs[p].queues, x) == 1 && Uses(s.held, s.pending, x) == 0
    ensures Target(s.refs, SlotRef(x)) == None
  {
    assert QueuesOwn(s, p);
    assert FactsOk(FactsOf(s, x));
  }

  lemma ReservedFacts(s: State, p: nat, v: nat, node: nat, x: nat, soft: bool)
    requires Inv(s) && Target(s.refs, Local(v)) == Some(p) && v !in s.held && node < NODES
    requires p in s.programs && |s.programs[p].queues| == NODES && x in s.programs[p].queues[node]
    requires x in s.slots
    ensures FactsOk(FactsOf(Reserve(s, p, v, node, x, soft), x))
  {
    QueuedFacts(s, p, node, x);
    QueuedAfterDequeue(s.programs[p].queues, node, x, x);
    HoldersAdded(s.held, v, x, x);
    TargetAfterMove(s.refs, SlotRef(x), Local(v), SlotRef(x));
    assert FactsOk(FactsOf(s, x));
  }

  lemma ReserveOther(s: State, p: nat, v: nat, node: nat, x: nat, soft: bool, y: nat)
    requires p in s.programs && |s.programs[p].queues| == NODES && node < NODES && x in s.programs[p].queues[node]
    requires v !in s.held && x in s.slots && y in s.slots && y != x && FactsOk(FactsOf(s, y))
    ensures FactsOk(FactsOf(Reserve(s, p, v, node, x, soft), y))
  {
    QueuedAfterDequeue(s.programs[p].queues, node, x, y);
    HoldersAdded(s.held, v, x, y);
    TargetAfterMove(s.refs, SlotRef(x), Local(v), SlotRef(y));
    SameFacts(s, Reserve(s, p, v, node, x, soft), y);
  }

  lemma ReserveRefs(s: State, p: nat, v: nat, node: nat, x: nat, soft: bool)
    requires Books(s) && v !in s.held
    requires p in s.programs && node < |s.programs[p].queues| && x in s.slots
    ensures var s' := Reserve(s, p, v, node, x, soft);
            && Exact(s'.refs) && s'.refs.counts.Keys == s.refs.counts.Keys
            && (forall w :: w in s'.held ==> Local(w) !in s'.refs.targets)
            && (forall y :: SlotRef(y) in s'.refs.targets ==> y in s'.slots)
  {
    MoveExact(s.refs, SlotRef(x), Local(v));
    MovedHolders(s.refs, SlotRef(x), Local(v));
  }

  lemma ReserveBooks(s: State, p: nat, v: nat, node: nat, x: nat, soft: bool)
    requires Books(s) && v !in s.held
    requires p in s.programs && node < |s.programs[p].queues| && x in s.slots
    ensures Books(Reserve(s, p, v, node, x, soft))
  {
    ReserveRefs(s, p, v, node, x, soft);
  }

  /** After a move only the target may be a new holder, and the source is none. */
  lemma MovedHolders(refs: Refs, to: Holder, from: Holder)
    requires to != from
    ensures forall h :: h in Move(refs, to, from).targets ==> h != from && (h == to || h in refs.targets)
  {
    forall h ensures h in Move(refs, to, from).targets ==> h != from && (h == to || h in refs.targets) {
      TargetAfterMove(refs, to, from, h);
    }
  }

  lemma ReserveQueues(s: State, p: nat, v: nat, node: nat, x: nat, soft: bool)
    requires Queues(s) && node < NODES
    requires p in s.programs && |s.programs[p].queues| == NODES && x in s.programs[p].queues[node]
    requires x in s.slots
    ensures Queues(Reserve(s, p, v, node, x, soft))
  {
    var s' := Reserve(s, p, v, node, x, soft);
    DequeueOwn(s, s', p, x, node);
  }

  lemma ReserveSlots(s: State, p: nat, v: nat, node: nat, x: nat, soft: bool)
    requires Inv(s) && Target(s.refs, Local(v)) == Some(p) && v !in s.held && node < NODES
    requires p in s.programs && |s.programs[p].queues| == NODES && x in s.programs[p].queues[node]
    requires x in s.slots
    ensures Slots(Reserve(s, p, v, node, x, soft))
  {
    var s' := Reserve(s, p, v, node, x, soft);
    forall y | y in s'.slots ensures FactsOk(FactsOf(s', y)) {
      if y != x {
        ReserveOther(s, p, v, node, x, soft, y);
      } else {
        ReservedFacts(s, p, v, node, x, soft);
      }
    }
  }

  lemma UsedFacts(s: State, x: nat)
    requires Inv(s) && x in s.slots && Uses(s.held, s.pending, x) > 0
    ensures s.slots[x].prog in s.programs && s.slots[x].started
    ensures Queued(QueuesOf(s, s.slots[x].prog), x) == 0 && Uses(s.held, s.pending, x) == 1
    ensures Target(s.refs, SlotRef(x)) == Some(s.slots[x].prog)
  {
    assert FactsOk(FactsOf(s, x));
  }

  /** A recycled VM meets what is asked of a VM outside a request. */
  lemma RecycledIsolated(slot: Slot, main: M.Vm)
    requires !slot.ran ==> Clean(slot, Some(main))
    requires slot.vm.softReset == slot.soft && (slot.errored ==> slot.vm.resetNeeded)
    ensures var recycled := Recycled(slot, main);
            && (!recycled.ran ==> Clean(recycled, Some(main)))
            && !recycled.vm.softReset && !recycled.vm.resetNeeded
            && (recycled.vm.ephemeral || recycled.soft || recycled.errored ==> !recycled.ran)
  {
    M.RecycleCleans(slot.vm, main, 0);
  }

  /** `t` is `s` after the one use of VM `x` was taken away: its reservation, or its reset task. */
  ghost predicate Released(s: State, t: State, x: nat) {
    && t.programs == s.programs && t.slots == s.slots && t.refs == s.refs && t.fault == s.fault
    && x in s.slots && s.slots[x].prog in s.programs && Uses(s.held, s.pending, x) > 0
    && (forall v :: v in t.held ==> v in s.held && t.held[v] == s.held[v])
    && (forall y :: y in t.pending ==> y in s.pending)
    && (forall y :: Uses(t.held, t.pending, y) == Uses(s.held, s.pending, y) - (if y == x then 1 else 0))
  }

  lemma RequeuedFacts(s: State, t: State, x: nat, v: nat, node: nat)
    requires Inv(s) && Released(s, t, x) && node < NODES
    ensures FactsOk(FactsOf(Requeue(t, s.slots[x].prog, x, v, node), x))
  {
    var p := s.slots[x].prog;
    UsedFacts(s, x);
    assert QueuesOwn(s, p);
    QueuedAfterEnqueue(s.programs[p], node, x, x);
    TargetAfterMove(s.refs, Local(v), SlotRef(x), SlotRef(x));
    assert FactsOk(FactsOf(s, x));
    RecycledIsolated(s.slots[x], s.programs[p].main);
  }

  lemma RequeueOther(s: State, t: State, x: nat, v: nat, node: nat, y: nat)
    requires Released(s, t, x) && node < NODES && |QueuesOf(s, s.slots[x].prog)| == NODES
    requires y in s.slots && y != x && FactsOk(FactsOf(s, y))
    ensures FactsOk(FactsOf(Requeue(t, s.slots[x].prog, x, v, node), y))
  {
    QueuedAfterEnqueue(s.programs[s.slots[x].prog], node, x, y);
    TargetAfterMove(s.refs, Local(v), SlotRef(x), SlotRef(y));
    SameFacts(s, Requeue(t, s.slots[x].prog, x, v, node), y);
  }

  lemma RequeueBooks(s: State, t: State, x: nat, v: nat, node: nat)
    requires Books(s) && Released(s, t, x) && Unused(t, v) && node < NODES
    ensures Books(Requeue(t, s.slots[x].prog, x, v, node))
  {
    MoveExact(s.refs, Local(v), SlotRef(x));
    MovedHolders(s.refs, Local(v), SlotRef(x));
  }

  lemma RequeueQueues(s: State, t: State, x: nat, v: nat, node: nat)
    requires Queues(s) && Released(s, t, x) && node < NODES
    ensures Queues(Requeue(t, s.slots[x].prog, x, v, node))
  {
    var s' := Requeue(t, s.slots[x].prog, x, v, node);
    EnqueueOwn(s, s', s.slots[x].prog, x, node);
  }

  lemma RequeueSlots(s: State, t: State, x: nat, v: nat, node: nat)
    requires Inv(s) && Released(s, t, x) && node < NODES
    ensures Slots(Requeue(t, s.slots[x].prog, x, v, node))
  {
    var s' := Requeue(t, s.slots[x].prog, x, v, node);
    var p := s.slots[x].prog;
    assert QueuesOwn(s, p);
    forall y | y in s'.slots ensures FactsOk(FactsOf(s', y)) {
      if y != x {
        RequeueOther(s, t, x, v, node, y);
      } else {
        RequeuedFacts(s, t, x, v, node);
      }
    }
  }

  lemma FinishKeeps(s: State, t: State, x: nat, v: nat, node: nat)
    requires Inv(s) && Released(s, t, x) && Unused(t, v) && node < NODES && !Orphaned(s, x)
    ensures Inv(Finish(t, x, v, node))
  {
    UsedFacts(s, x);
    RequeueBooks(s, t, x, v, node);
    RequeueQueues(s, t, x, v, node);
    RequeueSlots(s, t, x, v, node);
  }

  /** Handing a VM from its reservation to a reset task changes neither its count of uses nor its reference. */
  lemma DeferBooks(s: State, v: nat)
    requires Books(s) && v in s.held && s.held[v] in s.slots
    ensures Books(Defer(s, v))
  {
  }

  lemma DeferQueues(s: State, v: nat)
    requires Books(s) && Queues(s) && v in s.held && s.held[v] in s.slots
    ensures Queues(Defer(s, v))
  {
    var s' := Defer(s, v);
    QueuesUntouched(s, s');
  }

  lemma DeferSlots(s: State, v: nat)
    requires Slots(s) && v in s.held && s.held[v] in s.slots
    ensures Slots(Defer(s, v))
  {
    var s' := Defer(s, v);
    forall y | y in s'.slots ensures FactsOk(FactsOf(s', y)) {
      HoldersRemoved(s.held, v, y);
      SameFacts(s, s', y);
    }
  }

  lemma ReservationReleased(s: State, v: nat)
    requires Inv(s) && v in s.held
    ensures Released(s, s.(held := s.held - {v}), s.held[v])
  {
    HeldIsUsed(s, v);
    forall y
      ensures Uses(s.held - {v}, s.pending, y) == Uses(s.held, s.pending, y) - (if y == s.held[v] then 1 else 0)
    {
      HoldersRemoved(s.held, v, y);
    }
  }

  lemma FreeKeeps(s: State, v: nat, node: nat)
    requires Inv(s) && v in s.held && node < NODES && (Deferred(s, s.held[v]) || !Orphaned(s, s.held[v]))
    ensures Inv(FreeStep(s, v, node))
  {
    if M.IsResetNeeded(s.slots[s.held[v]].vm) {
      DeferBooks(s, v);
      DeferQueues(s, v);
      DeferSlots(s, v);
    } else {
      ReservationReleased(s, v);
      FinishKeeps(s, s.(held := s.held - {v}), s.held[v], v, node);
    }
  }

  lemma TaskReleased(s: State, x: nat)
    requires Books(s) && x in s.pending
    ensures Released(s, s.(pending := s.pending - multiset{x}), x)
  {
  }

  lemma ResetTaskKeeps(s: State, x: nat, v: nat, node: nat)
    requires Inv(s) && x in s.pending && Unused(s, v) && node < NODES && !Orphaned(s, x)
    ensures Inv(Finish(s.(pending := s.pending - multiset{x}), x, v, node))
  {
    TaskReleased(s, x);
    FinishKeeps(s, s.(pending := s.pending - multiset{x}), x, v, node);
  }

  /** A VM in use keeps its program's count above zero, so it survives the destruction of any program. */
  lemma UsedSurvives(s: State, p: nat, x: nat)
    requires Inv(s) && p in s.programs && s.refs.counts[p] == 0
    requires x in s.slots && Uses(s.held, s.pending, x) > 0
    ensures s.slots[x].prog != p
  {
    assert FactsOk(FactsOf(s, x));
    ZeroMeansUnheld(s.refs, p, SlotRef(x));
  }

  /** No VM of the program is in use. */
  ghost predicate NoneUsed(s: State, p: nat)
    requires Books(s)
  {
    && (forall v :: v in s.held ==> s.slots[s.held[v]].prog != p)
    && (forall x :: x in s.pending ==> s.slots[x].prog != p)
    && (forall x :: SlotRef(x) in s.refs.targets ==> s.slots[x].prog != p)
  }

  lemma UsesSurvive(s: State, p: nat)
    requires Inv(s) && p in s.programs && s.refs.counts[p] == 0
    ensures NoneUsed(s, p)
  {
    forall v | v in s.held ensures s.slots[s.held[v]].prog != p {
      HeldIsUsed(s, v);
      UsedSurvives(s, p, s.held[v]);
    }
    forall x | x in s.pending ensures s.slots[x].prog != p {
      UsedSurvives(s, p, x);
    }
    forall x | SlotRef(x) in s.refs.targets ensures s.slots[x].prog != p {
      assert FactsOk(FactsOf(s, x));
      UsedSurvives(s, p, x);
    }
  }

  lemma DestroyBooks(s: State, p: nat)
    requires Inv(s) && p in s.programs && s.refs.counts[p] == 0
    ensures Books(DestroyStep(s, p))
  {
    UsesSurvive(s, p);
    DestroyUnused(s, p);
  }

  lemma DestroyUnused(s: State, p: nat)
    requires Books(s) && p in s.programs && s.refs.counts[p] == 0 && NoneUsed(s, p)
    ensures Books(DestroyStep(s, p))
  {
    DestroyExact(s.refs, p);
  }

  lemma DestroyQueues(s: State, p: nat)
    requires Books(s) && Queues(s) && p in s.programs && s.refs.counts[p] == 0
    ensures Queues(DestroyStep(s, p))
  {
    var s' := DestroyStep(s, p);
    QueuesUntouched(s, s');
  }

  lemma DestroySlots(s: State, p: nat)
    requires Books(s) && Slots(s) && p in s.programs && s.refs.counts[p] == 0
    ensures Slots(DestroyStep(s, p))
  {
    var s' := DestroyStep(s, p);
    forall y | y in s'.slots ensures FactsOk(FactsOf(s', y)) {
      SameFacts(s, s', y);
    }
  }
}
