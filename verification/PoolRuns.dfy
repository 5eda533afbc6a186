/**
 Runs of the pool from its initial state: one in which a request is served, and the runs on
 which the pool touches something destroyed or a destructor waits for itself.
 */
module PoolRuns {
  import opened Options
  import opened SharedPtr
  import opened Pool
  import M = Machine

  /** A run can be extended at its end, whatever the steps are. */
  lemma {:induction false} Extends<S(!new), T(!new)>(run: (S, seq<T>, S) -> bool, can: (S, T) -> bool,
                                                     next: (S, T) -> S, s: S, steps: seq<T>, t: S, step: T)
    requires forall a, b :: run(a, [], b) <==> a == b
    requires forall a, first, rest, b ::
               run(a, [first] + rest, b) <==> can(a, first) && run(next(a, first), rest, b)
    requires run(s, steps, t) && can(t, step)
    ensures run(s, steps + [step], next(t, step))
    decreases |steps|
  {
    if steps == [] {
      assert steps + [step] == [step] + [];
    } else {
      assert steps == [steps[0]] + steps[1..];
      Extends(run, can, next, next(s, steps[0]), steps[1..], t, step);
      assert steps + [step] == [steps[0]] + (steps[1..] + [step]);
    }
  }

  function Next(s: State, step: Step): State {
    if Enabled(s, step) then Apply(s, step) else s
  }

  lemma RunSplits(s: State, first: Step, rest: seq<Step>, t: State)
    ensures Run(s, [first] + rest, t) <==> Enabled(s, first) && Run(Next(s, first), rest, t)
  {
    assert ([first] + rest)[1..] == rest;
  }

  lemma RunNext(s: State, steps: seq<Step>, t: State, step: Step)
    requires Run(s, steps, t) && Enabled(t, step)
    ensures Run(s, steps + [step], Apply(t, step))
  {
    var run := (a, all, b) => Run(a, all, b);
    forall a, first, rest, b
      ensures run(a, [first] + rest, b) <==> Enabled(a, first) && run(Next(a, first), rest, b)
    {
      RunSplits(a, first, rest, b);
    }
    Extends(run, Enabled, Next, s, steps, t, step);
  }

  /** Some run leads to the state; unless `late`, one in which no initialization fails late. */
  ghost predicate Reached(t: State, late: bool) {
    exists steps :: Run(INITIAL_STATE, steps, t) && (late || NoAborts(steps))
  }

  ghost predicate NoAborts(steps: seq<Step>) {
    forall i :: 0 <= i < |steps| ==> !steps[i].InitAborts?
  }

  lemma ReachedFirst()
    ensures Reached(INITIAL_STATE, false)
  {
    assert Run(INITIAL_STATE, [], INITIAL_STATE) && NoAborts([]);
  }

  lemma ReachedNext(t: State, step: Step, late: bool)
    requires Reached(t, late) && Enabled(t, step) && (late || !step.InitAborts?)
    ensures Reached(Apply(t, step), late)
  {
    var steps :| Run(INITIAL_STATE, steps, t) && (late || NoAborts(steps));
    RunNext(INITIAL_STATE, steps, t, step);
    assert late || NoAborts(steps + [step]);
  }

  /** What is referred to, reserved and being reset, with one program. */
  predicate Shape(t: State, targets: map<Holder, nat>, count: nat, held: map<nat, nat>, pending: multiset<nat>) {
    t.refs == Refs(targets, map[0 := count]) && t.held == held && t.pending == pending && !t.fault
  }

  /** Program 0, with VM `x`. */
  predicate WithVm(t: State, x: nat, initializing: bool, soft: bool) {
    && 0 in t.programs && t.programs[0].initializing == initializing && t.programs[0].completion.Succeeded?
    && !t.programs[0].lost && |t.programs[0].queues| == NODES
    && x in t.slots && t.slots[x].prog == 0 && t.slots[x].first == (x == 0)
    && t.slots[x].soft == soft && t.slots[x].vm.softReset == soft
  }

  // Who refers to program 0 as the run goes on: its creator, then also a tenant's pointer and a
  // request, then the VM that the request reserved, and in the end only that VM or its reset.

  const CREATED: map<Holder, nat> := map[Local(0) := 0]
  const COMMITTED: map<Holder, nat> := CREATED[Pointer(0) := 0]
  const LOADED: map<Holder, nat> := COMMITTED[Local(1) := 0]

  function Served(x: nat): map<Holder, nat> {
    LOADED[SlotRef(x) := 0] - {Local(1)}
  }

  function Left(x: nat): map<Holder, nat> {
    Served(x) - {Pointer(0)} - {Local(0)}
  }

  /** One more variable refers to the program. */
  lemma Copied(targets: map<Holder, nat>, count: nat, h: Holder)
    requires h !in targets
    ensures Assign(Refs(targets, map[0 := count]), h, Some(0)) == Refs(targets[h := 0], map[0 := count + 1])
  {
    assert map[0 := count][0 := count + 1] == map[0 := count + 1];
  }

  /** One variable less does. */
  lemma Dropped(targets: map<Holder, nat>, count: nat, h: Holder)
    requires h in targets && targets[h] == 0 && count > 0
    ensures Assign(Refs(targets, map[0 := count]), h, None) == Refs(targets - {h}, map[0 := count - 1])
  {
    assert map[0 := count][0 := count - 1] == map[0 := count - 1];
  }

  /** Another variable does. */
  lemma Moved(targets: map<Holder, nat>, count: nat, dst: Holder, src: Holder)
    requires src in targets && targets[src] == 0 && dst !in targets
    ensures Move(Refs(targets, map[0 := count]), dst, src) == Refs(targets[dst := 0] - {src}, map[0 := count])
  {
  }

  // ---- A request is served ----

  /** Program 0 has started its first VM. */
  predicate Begun(t: State) {
    && Shape(t, CREATED, 1, map[], multiset{}) && t.jobs == NO_JOBS
    && WithVm(t, 0, true, false) && 0 in t.programs[0].queues[0] && 1 !in t.slots
  }

  lemma ProgramBegins(main: M.Vm, maxRegex: nat) returns (t: State)
    ensures Reached(t, false) && Begun(t)
  {
    ReachedFirst();
    ReachedNext(INITIAL_STATE, Create(0, 0, main), false);
    var s := Apply(INITIAL_STATE, Create(0, 0, main));
    Copied(map[], 0, Local(0));
    t := FirstStarts(s, maxRegex);
  }

  lemma FirstStarts(s: State, maxRegex: nat) returns (t: State)
    requires Reached(s, false) && Shape(s, CREATED, 1, map[], multiset{}) && s.jobs == NO_JOBS && s.slots == map[]
    requires 0 in s.programs && s.programs[0].initializing && s.programs[0].completion.Pending?
    requires !s.programs[0].lost && |s.programs[0].queues| == NODES
    ensures Reached(t, false) && Begun(t)
  {
    ReachedNext(s, FirstVm(0, 0, maxRegex), false);
    t := Apply(s, FirstVm(0, 0, maxRegex));
  }

  /** VM `x` is queued. */
  predicate Ready(t: State, x: nat) {
    && Shape(t, CREATED, 1, map[], multiset{}) && t.jobs == NO_JOBS
    && WithVm(t, x, true, false) && x in t.programs[0].queues[0]
  }

  lemma ForkStarts(s: State, maxRegex: nat) returns (t: State)
    requires Reached(s, false) && Begun(s)
    ensures Reached(t, false) && Ready(t, 1)
  {
    var s1 := Apply(s, ForkVm(0, 1, maxRegex));
    ReachedNext(s, ForkVm(0, 1, maxRegex), false);
    ReachedNext(s1, ForkReady(1, 0), false);
    t := Apply(s1, ForkReady(1, 0));
  }

  /** The program is committed, and a request has loaded the pointer to it. */
  predicate Loaded(t: State, x: nat) {
    && Shape(t, LOADED, 3, map[], multiset{}) && t.jobs == NO_JOBS
    && WithVm(t, x, true, false) && x in t.programs[0].queues[0]
  }

  predicate Committed(t: State, x: nat) {
    && Shape(t, COMMITTED, 2, map[], multiset{}) && t.jobs == NO_JOBS
    && WithVm(t, x, true, false) && x in t.programs[0].queues[0]
  }

  lemma ProgramCommitted(s: State, x: nat) returns (t: State)
    requires Reached(s, false) && Ready(s, x)
    ensures Reached(t, false) && Committed(t, x)
  {
    Copied(s.refs.targets, 1, Pointer(0));
    ReachedNext(s, Exchange(0, 0), false);
    t := Apply(s, Exchange(0, 0));
  }

  lemma RequestLoads(s: State, x: nat) returns (t: State)
    requires Reached(s, false) && Committed(s, x)
    ensures Reached(t, false) && Loaded(t, x)
  {
    Copied(s.refs.targets, 2, Local(1));
    ReachedNext(s, Load(1, 0), false);
    t := Apply(s, Load(1, 0));
  }

  /** Request 1 holds VM `x`. */
  predicate Serving(t: State, x: nat, soft: bool) {
    && Shape(t, Served(x), 3, map[1 := x], multiset{})
    && t.jobs == NO_JOBS && WithVm(t, x, true, soft)
  }

  lemma RequestReserves(s: State, x: nat, soft: bool) returns (t: State)
    requires Reached(s, false) && Loaded(s, x)
    ensures Reached(t, false) && Serving(t, x, soft)
  {
    Moved(LOADED, 3, SlotRef(x), Local(1));
    t := Apply(s, Dequeue(1, 0, x, soft));
    ReachedNext(s, Dequeue(1, 0, x, soft), false);
  }

  /** For every main VM there is a run in which a request holds its first VM, and one with a later one. */
  lemma RequestServed(main: M.Vm, maxRegex: nat, first: bool, soft: bool) returns (t: State)
    ensures Reached(t, false) && Serving(t, if first then 0 else 1, soft)
  {
    var s := ProgramBegins(main, maxRegex);
    if !first {
      s := ForkStarts(s, maxRegex);
    }
    s := ProgramCommitted(s, if first then 0 else 1);
    s := RequestLoads(s, if first then 0 else 1);
    t := RequestReserves(s, if first then 0 else 1, soft);
  }

  // ---- An initialization that fails late ----

  predicate LostWhileServing(t: State) {
    && t.held == map[1 := 0] && t.pending == multiset{} && Local(2) !in t.refs.targets && t.jobs.running == map[]
    && Orphaned(t, 0)
  }

  lemma InitializationFails(s: State, soft: bool) returns (t: State)
    requires Reached(s, false) && Serving(s, 0, soft)
    ensures Reached(t, true) && LostWhileServing(t)
  {
    ReachedLate(s);
    ReachedNext(s, InitAborts(0), true);
    t := Apply(s, InitAborts(0));
  }

  lemma ReachedLate(t: State)
    requires Reached(t, false)
    ensures Reached(t, true)
  {
  }

  lemma OrphanFreed(s: State) returns (t: State)
    requires Reached(s, true) && LostWhileServing(s)
    ensures Reached(t, true) && t.fault
  {
    ReachedNext(s, Free(1, 0), true);
    t := Apply(s, Free(1, 0));
    if Deferred(s, 0) {
      assert 0 in t.pending;
      ReachedNext(t, ResetTask(0, 2, 0), true);
      t := Apply(t, ResetTask(0, 2, 0));
    }
  }

  /**
   An initialization that fails after its first VM is in use drops the main VM,
   and the request that frees that VM faults, at once or in its reset task.
   */
  lemma LateFailureFaults(main: M.Vm, maxRegex: nat, soft: bool) returns (t: State)
    ensures Reached(t, true) && t.fault
  {
    var s := RequestServed(main, maxRegex, true, soft);
    s := InitializationFails(s, soft);
    t := OrphanFreed(s);
  }

  // ---- The program is replaced while its last VM is freed ----

  /** The request is the last to refer to the program. */
  predicate Alone(t: State, x: nat) {
    && Shape(t, Left(x), 1, map[1 := x], multiset{}) && t.jobs == NO_JOBS
    && WithVm(t, x, true, true)
  }

  predicate Unloaded(t: State, x: nat) {
    && Shape(t, Served(x) - {Pointer(0)}, 2, map[1 := x], multiset{}) && t.jobs == NO_JOBS
    && WithVm(t, x, true, true)
  }

  lemma ProgramUnloaded(s: State, x: nat) returns (t: State)
    requires Reached(s, false) && Serving(s, x, true)
    ensures Reached(t, false) && Unloaded(t, x)
  {
    Dropped(s.refs.targets, 3, Pointer(0));
    ReachedNext(s, Unload(0), false);
    t := Apply(s, Unload(0));
  }

  lemma ProgramLetGo(s: State, x: nat) returns (t: State)
    requires Reached(s, false) && Unloaded(s, x)
    ensures Reached(t, false) && Alone(t, x)
  {
    Dropped(s.refs.targets, 2, Local(0));
    ReachedNext(s, Drop(0), false);
    t := Apply(s, Drop(0));
  }

  /** The future of the reset is stored, or it is yet to be. */
  predicate Noted(jobs: Jobs, x: nat, stored: bool) {
    && 0 !in jobs.stuck
    && if stored then x in jobs.stored && jobs.stored[x] == Job(x, 1)
       else x !in jobs.stored && Job(x, 1) in jobs.storing
  }

  /** VM `x` waits for its reset. */
  predicate LastReset(t: State, x: nat, stored: bool) {
    && Target(t.refs, SlotRef(x)) == Some(0) && Local(1) !in t.refs.targets && t.refs.counts == map[0 := 1]
    && 1 !in t.held && x in t.pending && !t.fault && WithVm(t, x, false, true)
    && Latest(t.jobs, x) == 1 && t.jobs.running == map[] && Noted(t.jobs, x, stored)
  }

  predicate InitializedAlone(t: State, x: nat) {
    && Target(t.refs, SlotRef(x)) == Some(0) && Local(1) !in t.refs.targets && t.refs.counts == map[0 := 1]
    && t.held == map[1 := x] && t.pending == multiset{} && !t.fault && t.jobs == NO_JOBS
    && WithVm(t, x, false, true)
  }

  lemma OnlyVmLeft(x: nat)
    ensures SlotRef(x) in Left(x) && Left(x)[SlotRef(x)] == 0 && Local(1) !in Left(x)
  {
  }

  lemma InitializationDone(s: State, x: nat) returns (t: State)
    requires Reached(s, false) && Alone(s, x)
    ensures Reached(t, false) && InitializedAlone(t, x)
  {
    OnlyVmLeft(x);
    ReachedNext(s, InitDone(0), false);
    t := s.(programs := Apply(s, InitDone(0)).programs);
    assert t == Apply(s, InitDone(0));
  }

  lemma LastFreed(s: State, x: nat) returns (t: State)
    requires Reached(s, false) && InitializedAlone(s, x)
    ensures Reached(t, false) && LastReset(t, x, false)
  {
    ReachedNext(s, Free(1, 0), false);
    t := Apply(s, Free(1, 0));
  }

  lemma FutureStored(s: State, x: nat) returns (t: State)
    requires Reached(s, false) && LastReset(s, x, false)
    ensures Reached(t, false) && LastReset(t, x, true)
  {
    ReachedNext(s, StoreFuture(Job(x, 1)), false);
    t := Apply(s, StoreFuture(Job(x, 1)));
  }

  /** The reset has dropped the last reference. */
  predicate Ended(t: State, x: nat, stored: bool) {
    && 0 in t.programs && 0 in t.refs.counts && t.refs.counts[0] == 0 && !t.programs[0].initializing
    && !t.fault && x in t.slots && t.slots[x].prog == 0 && t.slots[x].first == (x == 0)
    && 0 in t.jobs.ended && t.jobs.ended[0] == Job(x, 1) && Noted(t.jobs, x, stored)
  }

  predicate Resetting(t: State, x: nat, stored: bool) {
    && Target(t.refs, Local(1)) == Some(0) && t.refs.counts == map[0 := 1]
    && !t.fault && 0 in t.programs && !t.programs[0].initializing
    && x in t.slots && t.slots[x].prog == 0 && t.slots[x].first == (x == 0)
    && 1 in t.jobs.running && t.jobs.running[1] == Job(x, 1) && Noted(t.jobs, x, stored)
  }

  lemma ResetRuns(s: State, x: nat, stored: bool) returns (t: State)
    requires Reached(s, false) && LastReset(s, x, stored)
    ensures Reached(t, false) && Resetting(t, x, stored)
  {
    TargetAfterMove(s.refs, Local(1), SlotRef(x), Local(1));
    ReachedNext(s, ResetTask(x, 1, 0), false);
    t := Apply(s, ResetTask(x, 1, 0));
  }

  lemma DropsToZero(r: Refs)
    requires Target(r, Local(1)) == Some(0) && r.counts == map[0 := 1]
    ensures Assign(r, Local(1), None).counts[0] == 0 && LastReference(r, Local(1)) == Some(0)
  {
  }

  lemma DropNoted(s: State, x: nat, stored: bool)
    requires Resetting(s, x, stored)
    ensures var jobs := JobsAfter(s, Drop(1));
            0 in jobs.ended && jobs.ended[0] == Job(x, 1) && Noted(jobs, x, stored)
  {
    DropsToZero(s.refs);
  }

  lemma ResetEnds(s: State, x: nat, stored: bool) returns (t: State)
    requires Reached(s, false) && Resetting(s, x, stored)
    ensures Reached(t, false) && Ended(t, x, stored)
  {
    DropsToZero(s.refs);
    DropNoted(s, x, stored);
    ReachedNext(s, Drop(1), false);
    t := s.(refs := Assign(s.refs, Local(1), None), jobs := JobsAfter(s, Drop(1)));
    assert Act(s, Drop(1)) == s.(refs := Assign(s.refs, Local(1), None));
  }

  lemma LastEnds(main: M.Vm, maxRegex: nat, first: bool, stored: bool) returns (t: State)
    ensures Reached(t, false) && Ended(t, if first then 0 else 1, stored)
  {
    var x := if first then 0 else 1;
    var s := RequestServed(main, maxRegex, first, true);
    s := ProgramUnloaded(s, x);
    s := ProgramLetGo(s, x);
    s := InitializationDone(s, x);
    s := LastFreed(s, x);
    if stored {
      s := FutureStored(s, x);
    }
    s := ResetRuns(s, x, stored);
    t := ResetEnds(s, x, stored);
  }

  /**
   A request frees its VM with a reset while nobody else refers to the program. Where the
   reset ends before the freeing thread stores the future, the thread stores it in a VM
   that is gone, although no initialization failed.
   */
  lemma LateStoreFaults(main: M.Vm, maxRegex: nat, first: bool) returns (t: State)
    ensures Reached(t, false) && t.fault
  {
    var x := if first then 0 else 1;
    var s := LastEnds(main, maxRegex, first, false);
    ReachedNext(s, Destroy(0), false);
    var s1 := Apply(s, Destroy(0));
    ReachedNext(s1, StoreFuture(Job(x, 1)), false);
    t := Apply(s1, StoreFuture(Job(x, 1)));
  }

  /**
   Where the thread is faster and the VM is not the first, the destructor waits for the
   reset that it runs in.
   */
  lemma SelfWaitHappens(main: M.Vm, maxRegex: nat) returns (t: State)
    ensures Reached(t, false) && !t.fault && 0 in t.programs && 0 in t.jobs.stuck
  {
    var s := LastEnds(main, maxRegex, false, true);
    ReachedNext(s, Destroy(0), false);
    t := Apply(s, Destroy(0));
  }
}
