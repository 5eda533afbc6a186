/**
 What the pool's invariant means over whole runs: conservation and exclusive
 ownership of VMs, lifetime of programs across live updates, isolation between
 requests, and visibility of a committed program.
 */
module PoolTheorems {
  import opened Options
  import opened SharedPtr
  import opened Pool
  import S = PoolSafety
  import M = Machine

  lemma InitializationKeeps(s: State, step: Step)
    requires Inv(s) && Enabled(s, step)
    requires step.Create? || step.FirstVm? || step.InitFails? || step.InitAborts? ||
             step.ForkVm? || step.ForkReady? || step.InitDone?
    ensures Inv(Act(s, step))
  {
    match step
    case Create(v, p, main) => CreateKeeps(s, v, p, main);
    case FirstVm(p, x, maxRegex) => FirstVmKeeps(s, p, x, maxRegex);
    case InitFails(p) => InitKeeps(s, p, s.programs[p].initializing, Failed, s.programs[p].lost);
    case InitAborts(p) => InitKeeps(s, p, s.programs[p].initializing, Failed, true);
    case ForkVm(p, x, maxRegex) => ForkVmKeeps(s, p, x, maxRegex);
    case ForkReady(x, node) => ForkReadyKeeps(s, x, node);
    case InitDone(p) => InitKeeps(s, p, false, s.programs[p].completion, s.programs[p].lost);
  }

  lemma PointersKeep(s: State, step: Step)
    requires Inv(s) && Enabled(s, step)
    requires step.Load? || step.Exchange? || step.Unload? || step.Drop?
    ensures Inv(Act(s, step))
  {
    match step
    case Load(v, loc) => SetPtrKeeps(s, Local(v), Target(s.refs, Pointer(loc)));
    case Exchange(loc, v) => SetPtrKeeps(s, Pointer(loc), Target(s.refs, Local(v)));
    case Unload(loc) => SetPtrKeeps(s, Pointer(loc), None);
    case Drop(v) => SetPtrKeeps(s, Local(v), None);
  }

  lemma RequestsKeep(s: State, step: Step)
    requires Inv(s) && Enabled(s, step)
    requires step.Dequeue? || step.Guest? || step.ErrorHandling?
    ensures Inv(Act(s, step))
  {
    match step
    case Dequeue(v, node, x, soft) => DequeueKeeps(s, v, node, x, soft);
    case Guest(v, vm) => GuestKeeps(s, v, vm);
    case ErrorHandling(v) => ErrorKeeps(s, v);
  }

  lemma ReleasesKeep(s: State, step: Step)
    requires Inv(s) && Enabled(s, step) && !Crashes(s, step)
    requires step.Free? || step.StoreFuture? || step.ResetTask? || step.Destroy?
    ensures Inv(Act(s, step))
  {
    match step
    case Free(v, node) => S.FreeKeeps(s, v, node);
    case StoreFuture(_) =>
    case ResetTask(x, v, node) => S.ResetTaskKeeps(s, x, v, node);
    case Destroy(p) => DestructorKeeps(s, p);
  }

  lemma DestructorKeeps(s: State, p: nat)
    requires Inv(s) && Enabled(s, Destroy(p))
    ensures Inv(Act(s, Destroy(p)))
  {
    if !SelfWaits(s, p) {
      DestroyKeeps(s, p);
    }
  }

  lemma ActKeeps(s: State, step: Step)
    requires Inv(s) && Enabled(s, step) && !Crashes(s, step)
    ensures Inv(Act(s, step))
  {
    if step.Load? || step.Exchange? || step.Unload? || step.Drop? {
      PointersKeep(s, step);
    } else if step.Dequeue? || step.Guest? || step.ErrorHandling? {
      RequestsKeep(s, step);
    } else if step.Free? || step.StoreFuture? || step.ResetTask? || step.Destroy? {
      ReleasesKeep(s, step);
    } else {
      InitializationKeeps(s, step);
    }
  }

  /** Every step that touches nothing destroyed keeps the invariant. */
  lemma StepKeeps(s: State, step: Step)
    requires Inv(s) && Enabled(s, step) && !Crashes(s, step)
    ensures Inv(Apply(s, step))
  {
    ActKeeps(s, step);
    S.JobsIrrelevant(Act(s, step), JobsAfter(s, step));
  }

  lemma CreateKeeps(s: State, v: nat, p: nat, main: M.Vm)
    requires Inv(s) && Unused(s, v) && p !in s.programs
    ensures Inv(CreateStep(s, v, p, main))
  {
    S.CreateBooks(s, v, p, main);
    S.CreateQueues(s, v, p, main);
    S.CreateSlots(s, v, p, main);
  }

  lemma FirstVmKeeps(s: State, p: nat, x: nat, maxRegex: nat)
    requires Inv(s) && p in s.programs && x !in s.slots
    ensures Inv(FirstVmStep(s, p, x, maxRegex))
  {
    S.FirstVmBooks(s, p, x, maxRegex);
    S.FirstVmQueues(s, p, x, maxRegex);
    S.FirstVmSlots(s, p, x, maxRegex);
  }

  lemma ForkVmKeeps(s: State, p: nat, x: nat, maxRegex: nat)
    requires Inv(s) && p in s.programs && x !in s.slots
    ensures Inv(ForkVmStep(s, p, x, maxRegex))
  {
    S.ForkVmBooks(s, p, x, maxRegex);
    S.ForkVmQueues(s, p, x, maxRegex);
    S.ForkVmSlots(s, p, x, maxRegex);
  }

  lemma ForkReadyKeeps(s: State, x: nat, node: nat)
    requires Inv(s) && x in s.slots && !s.slots[x].started && node < NODES
    ensures Inv(ForkReadyStep(s, x, node))
  {
    S.ForkReadyBooks(s, x, node);
    S.ForkReadyQueues(s, x, node);
    S.ForkReadySlots(s, x, node);
  }

  lemma InitKeeps(s: State, p: nat, initializing: bool, completion: Completion, lost: bool)
    requires Inv(s) && p in s.programs
    ensures Inv(InitStep(s, p, initializing, completion, lost))
  {
    S.InitBooks(s, p, initializing, completion, lost);
    S.InitQueues(s, p, initializing, completion, lost);
    S.InitSlots(s, p, initializing, completion, lost);
  }

  lemma GuestKeeps(s: State, v: nat, vm: M.Vm)
    requires Inv(s) && v in s.held && s.held[v] in s.slots
    requires vm.resetNeeded == s.slots[s.held[v]].vm.resetNeeded && vm.softReset == s.slots[s.held[v]].vm.softReset
    ensures Inv(GuestStep(s, v, vm))
  {
    S.GuestBooks(s, v, vm);
    S.GuestQueues(s, v, vm);
    S.GuestSlots(s, v, vm);
  }

  lemma ErrorKeeps(s: State, v: nat)
    requires Inv(s) && v in s.held && s.held[v] in s.slots
    ensures Inv(ErrorStep(s, v))
  {
    S.ErrorBooks(s, v);
    S.ErrorQueues(s, v);
    S.ErrorSlots(s, v);
  }

  lemma DestroyKeeps(s: State, p: nat)
    requires Inv(s) && p in s.programs && s.refs.counts[p] == 0
    ensures Inv(DestroyStep(s, p))
  {
    S.DestroyBooks(s, p);
    S.DestroyQueues(s, p);
    S.DestroySlots(s, p);
  }

  lemma SetPtrKeeps(s: State, h: Holder, t: Option<nat>)
    requires Inv(s) && !h.SlotRef?
    requires t.Some? ==> t.value in s.refs.counts
    requires h.Local? && t.Some? ==> h.v !in s.held
    ensures Inv(SetPtr(s, h, t))
  {
    S.SetPtrBooks(s, h, t);
    S.SetPtrQueues(s, h, t);
    S.SetPtrSlots(s, h, t);
  }

  /** A VM taken from a program's queue belongs to that program. */
  lemma DequeueReserves(s: State, v: nat, node: nat, x: nat, soft: bool)
    requires Inv(s) && Enabled(s, Dequeue(v, node, x, soft))
    ensures var p := s.refs.targets[Local(v)];
            && p in s.programs && x in s.slots && node < |s.programs[p].queues| && s.slots[x].prog == p
            && DequeueStep(s, v, node, x, soft) == Reserve(s, p, v, node, x, soft)
  {
    var p := s.refs.targets[Local(v)];
    assert QueuesOwn(s, p);
    S.QueuedFacts(s, p, node, x);
  }

  lemma DequeueKeeps(s: State, v: nat, node: nat, x: nat, soft: bool)
    requires Inv(s) && Enabled(s, Dequeue(v, node, x, soft))
    ensures Inv(DequeueStep(s, v, node, x, soft))
  {
    var p := s.refs.targets[Local(v)];
    DequeueReserves(s, v, node, x, soft);
    S.QueuedFacts(s, p, node, x);
    S.ReserveBooks(s, p, v, node, x, soft);
    S.ReserveQueues(s, p, v, node, x, soft);
    S.ReserveSlots(s, p, v, node, x, soft);
  }

  lemma FaultSticks(s: State, step: Step)
    requires s.fault && Enabled(s, step)
    ensures Apply(s, step).fault
  {
  }

  lemma {:induction false} FaultStays(s: State, steps: seq<Step>, t: State)
    requires s.fault && Run(s, steps, t)
    ensures t.fault
    decreases |steps|
  {
    if steps != [] {
      FaultSticks(s, steps[0]);
      FaultStays(Apply(s, steps[0]), steps[1..], t);
    }
  }

  /** The first step of a run that ends without a fault. */
  lemma Advances(s: State, steps: seq<Step>, t: State)
    requires Inv(s) && steps != [] && Run(s, steps, t) && !t.fault
    ensures !Crashes(s, steps[0]) && Inv(Apply(s, steps[0]))
  {
    if Crashes(s, steps[0]) {
      CrashFaults(s, steps[0]);
      FaultStays(Apply(s, steps[0]), steps[1..], t);
    }
    StepKeeps(s, steps[0]);
  }

  lemma CrashFaults(s: State, step: Step)
    requires Enabled(s, step) && Crashes(s, step)
    ensures Apply(s, step).fault
  {
  }

  /** The invariant holds after every interleaving, of any length, up to a fault. */
  lemma {:induction false} RunKeeps(s: State, steps: seq<Step>, t: State)
    requires Inv(s) && Run(s, steps, t) && !t.fault
    ensures Inv(t)
    decreases |steps|
  {
    if steps != [] {
      Advances(s, steps, t);
      RunKeeps(Apply(s, steps[0]), steps[1..], t);
    }
  }

  lemma Initially()
    ensures Inv(INITIAL_STATE)
  {
  }

  /**
   In every state reached without a fault each started VM is in exactly one
   place: one entry in the queues of its own program and of no other, or one
   reservation, or one reset task.
   */
  lemma Conservation(steps: seq<Step>, t: State, x: nat)
    requires Run(INITIAL_STATE, steps, t) && !t.fault && x in t.slots && t.slots[x].started
    ensures t.slots[x].prog in t.programs
    ensures Queued(t.programs[t.slots[x].prog].queues, x) + |HoldersOfSlot(t.held, x)| + t.pending[x] == 1
    ensures forall q :: q in t.programs && q != t.slots[x].prog ==> Queued(t.programs[q].queues, x) == 0
  {
    Initially();
    RunKeeps(INITIAL_STATE, steps, t);
    assert FactsOk(FactsOf(t, x));
    forall q | q in t.programs && q != t.slots[x].prog ensures Queued(t.programs[q].queues, x) == 0 {
      assert QueuesOwn(t, q);
    }
  }

  /** No two requests ever hold the same VM, and a held VM is neither queued nor resetting. */
  lemma ExclusiveOwnership(steps: seq<Step>, t: State, v: nat, w: nat)
    requires Run(INITIAL_STATE, steps, t) && !t.fault && v in t.held
    ensures w in t.held && w != v ==> t.held[w] != t.held[v]
    ensures t.held[v] !in t.pending
    ensures forall q :: q in t.programs ==> Queued(t.programs[q].queues, t.held[v]) == 0
  {
    Initially();
    RunKeeps(INITIAL_STATE, steps, t);
    var x := t.held[v];
    S.HeldIsUsed(t, v);
    S.UsedFacts(t, x);
    Conservation(steps, t, x);
    HolderCounts(t.held, v, w);
  }

  lemma HolderCounts(held: map<nat, nat>, v: nat, w: nat)
    requires v in held
    ensures |HoldersOfSlot(held, held[v])| >= 1
    ensures w in held && w != v && held[w] == held[v] ==> |HoldersOfSlot(held, held[v])| >= 2
  {
    var rest := HoldersOfSlot(held, held[v]) - {v};
    assert HoldersOfSlot(held, held[v]) == rest + {v};
    if w in held && w != v && held[w] == held[v] {
      assert rest == (rest - {w}) + {w};
    }
  }

  /**
   A program is alive exactly as long as somebody refers to it: each count is the
   number of holders, the VM of a running or resetting request is one of them and
   refers to its own program, and a program nobody refers to has count zero.
   */
  lemma Lifetime(steps: seq<Step>, t: State)
    requires Run(INITIAL_STATE, steps, t) && !t.fault
    ensures forall p :: p in t.programs ==> p in t.refs.counts && t.refs.counts[p] == |HoldersOf(t.refs.targets, p)|
    ensures forall h :: h in t.refs.targets ==> t.refs.targets[h] in t.programs
    ensures forall x :: Uses(t.held, t.pending, x) > 0 ==>
              && x in t.slots
              && Target(t.refs, SlotRef(x)) == Some(t.slots[x].prog)
              && t.refs.counts[t.slots[x].prog] > 0
  {
    Initially();
    RunKeeps(INITIAL_STATE, steps, t);
    forall x | Uses(t.held, t.pending, x) > 0
      ensures && x in t.slots
              && Target(t.refs, SlotRef(x)) == Some(t.slots[x].prog)
              && t.refs.counts[t.slots[x].prog] > 0
    {
      if x !in t.slots {
        S.UnknownIsUnused(t, x);
      }
      S.UsedFacts(t, x);
      assert SlotRef(x) in HoldersOf(t.refs.targets, t.slots[x].prog);
    }
  }

  /**
   Isolation between requests: a VM taken from a queue that is ephemeral, or was
   last reserved with soft reset, or failed in its last request, has the guest
   memory, areas, signal handler and regex table of its main VM.
   */
  lemma QueuedVmsIsolated(steps: seq<Step>, t: State, p: nat, x: nat)
    requires Run(INITIAL_STATE, steps, t) && !t.fault && p in t.programs && Queued(t.programs[p].queues, x) > 0
    ensures x in t.slots && t.slots[x].prog == p
    ensures var slot := t.slots[x];
            && !slot.vm.resetNeeded && !slot.vm.softReset
            && (slot.vm.ephemeral || slot.soft || slot.errored || !slot.ran ==>
                  && M.CleanFor(slot.vm, t.programs[p].main)
                  && slot.vm.waiting == (slot.resets == 0 || t.programs[p].main.waiting))
  {
    Initially();
    RunKeeps(INITIAL_STATE, steps, t);
    assert QueuesOwn(t, p);
    QueuedVmIsolated(t, p, x);
  }

  lemma QueuedVmIsolated(t: State, p: nat, x: nat)
    requires Slots(t) && QueuesOwn(t, p) && p in t.programs && Queued(t.programs[p].queues, x) > 0
    ensures x in t.slots && t.slots[x].prog == p
    ensures var slot := t.slots[x];
            && !slot.vm.resetNeeded && !slot.vm.softReset
            && (slot.vm.ephemeral || slot.soft || slot.errored || !slot.ran ==>
                  && M.CleanFor(slot.vm, t.programs[p].main)
                  && slot.vm.waiting == (slot.resets == 0 || t.programs[p].main.waiting))
  {
    assert FactsOk(FactsOf(t, x));
  }

  // ---- Visibility of a commit ----

  /** The `shared_ptr` variables a step writes. */
  function Writes(s: State, step: Step): set<Holder> {
    match step
    case Create(v, _, _) => {Local(v)}
    case Load(v, _) => {Local(v)}
    case Exchange(loc, _) => {Pointer(loc)}
    case Unload(loc) => {Pointer(loc)}
    case Drop(v) => {Local(v)}
    case Dequeue(v, _, x, _) => {Local(v), SlotRef(x)}
    case Free(v, _) => if v in s.held then {Local(v), SlotRef(s.held[v])} else {}
    case ResetTask(x, v, _) => {Local(v), SlotRef(x)}
    case _ => {}
  }

  /** A program pointer or local variable, and what no step of a run may do to keep it. */
  predicate Writer(step: Step, h: Holder) {
    match h
    case Pointer(loc) => (step.Exchange? || step.Unload?) && step.loc == loc
    case Local(v) =>
      (step.Create? || step.Load? || step.Drop? || step.Dequeue? || step.Free? || step.ResetTask?) && step.v == v
    case SlotRef(_) => true
  }

  lemma SetPtrTarget(s: State, k: Holder, t: Option<nat>, h: Holder)
    requires h != k
    ensures Target(SetPtr(s, k, t).refs, h) == Target(s.refs, h)
  {
    TargetAfterAssign(s.refs, k, t, h);
  }

  lemma FinishTarget(s: State, x: nat, v: nat, node: nat, h: Holder)
    requires h != Local(v) && h != SlotRef(x)
    ensures Target(Finish(s, x, v, node).refs, h) == Target(s.refs, h)
  {
    TargetAfterMove(s.refs, Local(v), SlotRef(x), h);
  }

  lemma DequeueTarget(s: State, v: nat, node: nat, x: nat, soft: bool, h: Holder)
    requires Local(v) in s.refs.targets && h != Local(v) && h != SlotRef(x)
    ensures Target(DequeueStep(s, v, node, x, soft).refs, h) == Target(s.refs, h)
  {
    TargetAfterMove(s.refs, SlotRef(x), Local(v), h);
  }

  lemma OtherTargetsStay(s: State, step: Step, h: Holder)
    requires Enabled(s, step) && h !in Writes(s, step)
    ensures Target(Apply(s, step).refs, h) == Target(s.refs, h)
  {
    match step
    case Create(v, p, main) => TargetAfterAssign(Refs(s.refs.targets, s.refs.counts[p := 0]), Local(v), Some(p), h);
    case Load(v, loc) => SetPtrTarget(s, Local(v), Target(s.refs, Pointer(loc)), h);
    case Exchange(loc, v) => SetPtrTarget(s, Pointer(loc), Target(s.refs, Local(v)), h);
    case Unload(loc) => SetPtrTarget(s, Pointer(loc), None, h);
    case Drop(v) => SetPtrTarget(s, Local(v), None, h);
    case Dequeue(v, node, x, soft) => DequeueTarget(s, v, node, x, soft, h);
    case Free(v, node) => FinishTarget(s.(held := s.held - {v}), s.held[v], v, node, h);
    case ResetTask(x, v, node) => FinishTarget(s.(pending := s.pending - multiset{x}), x, v, node, h);
    case _ =>
  }

  lemma WriterCovers(s: State, step: Step, h: Holder)
    requires !h.SlotRef? && !Writer(step, h)
    ensures h !in Writes(s, step)
  {
  }

  lemma {:induction false} TargetSurvives(s: State, steps: seq<Step>, t: State, h: Holder)
    requires Run(s, steps, t) && !h.SlotRef?
    requires forall i :: 0 <= i < |steps| ==> !Writer(steps[i], h)
    ensures Target(t.refs, h) == Target(s.refs, h)
    decreases |steps|
  {
    if steps != [] {
      WriterCovers(s, steps[0], h);
      OtherTargetsStay(s, steps[0], h);
      forall i | 0 <= i < |steps[1..]| ensures !Writer(steps[1..][i], h) {
        assert steps[1..][i] == steps[i + 1];
      }
      TargetSurvives(Apply(s, steps[0]), steps[1..], t, h);
    }
  }

  /** A thread that has loaded a program reserves one of its VMs, however long it waits. */
  lemma LoadedIsReserved(s3: State, p: nat, v: nat, waiting: seq<Step>, s4: State, node: nat, x: nat, soft: bool)
    requires Inv(s3) && Target(s3.refs, Local(v)) == Some(p) && Run(s3, waiting, s4) && !s4.fault
    requires forall i :: 0 <= i < |waiting| ==> !Writer(waiting[i], Local(v))
    requires Enabled(s4, Dequeue(v, node, x, soft))
    ensures Reserved(Apply(s4, Dequeue(v, node, x, soft)), v, x, p)
  {
    TargetSurvives(s3, waiting, s4, Local(v));
    RunKeeps(s3, waiting, s4);
    DequeueReserves(s4, v, node, x, soft);
    TargetAfterMove(s4.refs, SlotRef(x), Local(v), SlotRef(x));
  }

  /** Thread `v` holds VM `x`, which is a VM of program `p` and keeps it alive. */
  predicate Reserved(t: State, v: nat, x: nat, p: nat) {
    && !t.fault && v in t.held && t.held[v] == x && x in t.slots
    && t.slots[x].prog == p && Target(t.refs, SlotRef(x)) == Some(p)
  }

  lemma CommittedStays(s: State, loc: nat, c: nat, between: seq<Step>, s2: State)
    requires Inv(s) && Enabled(s, Exchange(loc, c))
    requires Run(Apply(s, Exchange(loc, c)), between, s2) && !s2.fault
    requires forall i :: 0 <= i < |between| ==> !Writer(between[i], Pointer(loc))
    ensures Inv(s2) && Target(s2.refs, Pointer(loc)) == Some(s.refs.targets[Local(c)])
  {
    var s1 := Apply(s, Exchange(loc, c));
    StepKeeps(s, Exchange(loc, c));
    TargetAfterAssign(s.refs, Pointer(loc), Target(s.refs, Local(c)), Pointer(loc));
    TargetSurvives(s1, between, s2, Pointer(loc));
    RunKeeps(s1, between, s2);
  }

  lemma LoadGives(s2: State, v: nat, loc: nat, p: nat)
    requires Inv(s2) && Enabled(s2, Load(v, loc)) && Target(s2.refs, Pointer(loc)) == Some(p)
    ensures Inv(Apply(s2, Load(v, loc))) && Target(Apply(s2, Load(v, loc)).refs, Local(v)) == Some(p)
  {
    StepKeeps(s2, Load(v, loc));
    TargetAfterAssign(s2.refs, Local(v), Some(p), Local(v));
  }

  /**
   Every reservation that loads the program pointer after a commit gets a VM of
   the committed program, however other threads interleave before the load and
   between the load and the reservation, as long as the pointer itself is not
   replaced before the load.
   */
  lemma CommitVisible(s: State, loc: nat, c: nat, between: seq<Step>, s2: State, v: nat,
                      waiting: seq<Step>, s4: State, node: nat, x: nat, soft: bool)
    requires Inv(s) && Enabled(s, Exchange(loc, c))
    requires Run(Apply(s, Exchange(loc, c)), between, s2)
    requires forall i :: 0 <= i < |between| ==> !Writer(between[i], Pointer(loc))
    requires Enabled(s2, Load(v, loc)) && Run(Apply(s2, Load(v, loc)), waiting, s4) && !s4.fault
    requires forall i :: 0 <= i < |waiting| ==> !Writer(waiting[i], Local(v))
    requires Enabled(s4, Dequeue(v, node, x, soft))
    ensures Reserved(Apply(s4, Dequeue(v, node, x, soft)), v, x, s.refs.targets[Local(c)])
  {
    var s3 := Apply(s2, Load(v, loc));
    if s2.fault {
      FaultSticks(s2, Load(v, loc));
      FaultStays(s3, waiting, s4);
    }
    CommittedStays(s, loc, c, between, s2);
    LoadGives(s2, v, loc, s.refs.targets[Local(c)]);
    LoadedIsReserved(s3, s.refs.targets[Local(c)], v, waiting, s4, node, x, soft);
  }
}
