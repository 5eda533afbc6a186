/**
 When the pool touches something destroyed, and when a destructor waits for itself: over
 every run, the exact conditions.
 */
module PoolFaults {
  import opened Options
  import opened SharedPtr
  import opened Pool
  import opened PoolTheorems
  import S = PoolSafety

  /** No step of the run touches something destroyed. */
  ghost predicate CrashFree(s: State, steps: seq<Step>, t: State)
    requires Run(s, steps, t)
    decreases |steps|
  {
    steps == [] || (!Crashes(s, steps[0]) && CrashFree(Apply(s, steps[0]), steps[1..], t))
  }

  /**
   A run ends in a fault exactly if one of its steps recycles a VM whose main VM is gone or
   stores a future in a VM that is gone. No other step can touch something destroyed.
   */
  lemma {:induction false} FaultExact(s: State, steps: seq<Step>, t: State)
    requires Inv(s) && Run(s, steps, t)
    ensures t.fault <==> !CrashFree(s, steps, t)
    decreases |steps|
  {
    if steps != [] {
      var next := Apply(s, steps[0]);
      if Crashes(s, steps[0]) {
        CrashFaults(s, steps[0]);
        FaultStays(next, steps[1..], t);
      } else {
        StepKeeps(s, steps[0]);
        FaultExact(next, steps[1..], t);
      }
    }
  }

  // ---- Main VMs ----

  ghost predicate NoneLost(s: State) {
    forall p :: p in s.programs ==> !s.programs[p].lost
  }

  /** Only an initialization that fails late destroys a main VM. */
  lemma StepLoses(s: State, step: Step)
    requires Enabled(s, step) && NoneLost(s) && !step.InitAborts?
    ensures NoneLost(Apply(s, step))
  {
    forall p | p in Apply(s, step).programs ensures !Apply(s, step).programs[p].lost {
      LostBefore(s, step, p);
    }
  }

  lemma FinishLoses(s: State, x: nat, v: nat, node: nat, p: nat)
    requires p in Finish(s, x, v, node).programs
    ensures Finish(s, x, v, node).programs[p].lost ==> p in s.programs && s.programs[p].lost
  {
  }

  lemma LostBefore(s: State, step: Step, p: nat)
    requires Enabled(s, step) && !step.InitAborts? && p in Act(s, step).programs
    ensures Act(s, step).programs[p].lost ==> p in s.programs && s.programs[p].lost
  {
    if step.Free? && !Deferred(s, s.held[step.v]) {
      FinishLoses(s.(held := s.held - {step.v}), s.held[step.v], step.v, step.node, p);
    } else if step.ResetTask? {
      FinishLoses(s.(pending := s.pending - multiset{step.x}), step.x, step.v, step.node, p);
    } else if step.Dequeue? || step.Destroy? || step.Load? || step.Exchange? || step.Unload? || step.Drop? {
      RequestLoses(s, step, p);
    }
  }

  lemma RequestLoses(s: State, step: Step, p: nat)
    requires Enabled(s, step) && p in Act(s, step).programs
    requires step.Dequeue? || step.Destroy? || step.Load? || step.Exchange? || step.Unload? || step.Drop?
    ensures Act(s, step).programs[p].lost ==> p in s.programs && s.programs[p].lost
  {
  }

  // ---- Futures yet to be stored ----

  /** Every VM in which a future is yet to be stored still exists. */
  ghost predicate Attached(s: State) {
    forall job :: job in s.jobs.storing ==> job.slot in s.slots
  }

  /** The step destroys no program while a future is yet to be stored in one of its VMs. */
  ghost predicate StepOutlives(s: State, step: Step) {
    forall job :: job in s.jobs.storing && job.slot in s.slots ==> !Destroys(s, step, s.slots[job.slot].prog)
  }

  /** Some reference to the program of every VM outlives the storing of every future in it. */
  ghost predicate Outlived(s: State, steps: seq<Step>, t: State)
    requires Run(s, steps, t)
    decreases |steps|
  {
    steps == [] || (StepOutlives(s, steps[0]) && Outlived(Apply(s, steps[0]), steps[1..], t))
  }

  /** The step is the destructor of program `p`, which gets through. */
  predicate Destroys(s: State, step: Step, p: nat) {
    step == Destroy(p) && !SelfWaits(s, p)
  }

  lemma FinishSlots(s: State, x: nat, v: nat, node: nat, y: nat)
    ensures y in Finish(s, x, v, node).slots <==> y in s.slots
    ensures y in s.slots ==> Finish(s, x, v, node).slots[y].prog == s.slots[y].prog
  {
  }

  /** Only a destructor takes VMs away. */
  lemma SlotsStay(s: State, step: Step, x: nat)
    requires Enabled(s, step) && x in s.slots && !Destroys(s, step, s.slots[x].prog)
    ensures x in Act(s, step).slots && Act(s, step).slots[x].prog == s.slots[x].prog
  {
    match step
    case Free(v, node) => FinishSlots(s.(held := s.held - {v}), s.held[v], v, node, x);
    case ResetTask(y, v, node) => FinishSlots(s.(pending := s.pending - multiset{y}), y, v, node, x);
    case _ =>
  }

  /** New VMs have fresh numbers. */
  lemma SlotsNew(s: State, step: Step, x: nat)
    requires Enabled(s, step) && x !in s.slots && x in Act(s, step).slots
    ensures Fresh(s, x)
  {
    match step
    case Free(v, node) => FinishSlots(s.(held := s.held - {v}), s.held[v], v, node, x);
    case ResetTask(y, v, node) => FinishSlots(s.(pending := s.pending - multiset{y}), y, v, node, x);
    case _ =>
  }

  /** A future to be stored was one before, or is that of a reset just handed over. */
  lemma StoringAfter(s: State, step: Step, job: Job)
    requires Enabled(s, step) && job in JobsAfter(s, step).storing
    ensures job in s.jobs.storing || (step.Free? && Deferred(s, s.held[step.v]) && job.slot == s.held[step.v])
  {
  }

  lemma StepAttaches(s: State, step: Step)
    requires Books(s) && Enabled(s, step) && Attached(s) && StepOutlives(s, step)
    ensures Attached(Apply(s, step))
  {
    forall job | job in Apply(s, step).jobs.storing ensures job.slot in Apply(s, step).slots {
      StoringAfter(s, step, job);
      SlotsStay(s, step, job.slot);
    }
  }

  ghost predicate Dangling(s: State, job: Job) {
    job in s.jobs.storing && job.slot !in s.slots
  }

  /** A future whose VM is gone stays to be stored, until storing it is a fault. */
  lemma StepDangles(s: State, step: Step, job: Job)
    requires Enabled(s, step) && Dangling(s, job)
    ensures Apply(s, step).fault || Dangling(Apply(s, step), job)
  {
    if job.slot in Act(s, step).slots {
      SlotsNew(s, step, job.slot);
    }
  }

  lemma {:induction false} DanglingStays(s: State, steps: seq<Step>, t: State, job: Job)
    requires Run(s, steps, t) && Dangling(s, job)
    ensures t.fault || Dangling(t, job)
    decreases |steps|
  {
    if steps != [] {
      var next := Apply(s, steps[0]);
      StepDangles(s, steps[0], job);
      if next.fault {
        FaultStays(next, steps[1..], t);
      } else {
        DanglingStays(next, steps[1..], t, job);
      }
    }
  }

  lemma DestroyDangles(s: State, step: Step) returns (job: Job)
    requires Enabled(s, step) && !StepOutlives(s, step)
    ensures Dangling(Apply(s, step), job)
  {
    job :| job in s.jobs.storing && job.slot in s.slots && Destroys(s, step, s.slots[job.slot].prog);
  }

  /**
   Without an initialization that fails late, a run touches nothing destroyed, and nothing
   that it left to be stored will, if and only if no program was destroyed before every
   future of its VMs was stored.
   */
  lemma {:induction false} NoFaultExact(s: State, steps: seq<Step>, t: State)
    requires Inv(s) && NoneLost(s) && Attached(s) && Run(s, steps, t)
    requires forall i :: 0 <= i < |steps| ==> !steps[i].InitAborts?
    ensures !t.fault && Attached(t) <==> Outlived(s, steps, t)
    decreases |steps|
  {
    if steps != [] {
      var next := Apply(s, steps[0]);
      assert !steps[0].InitAborts?;
      if StepOutlives(s, steps[0]) {
        StepAttaches(s, steps[0]);
        StepLoses(s, steps[0]);
        StepKeeps(s, steps[0]);
        NoFaultExact(next, steps[1..], t);
      } else {
        var job := DestroyDangles(s, steps[0]);
        DanglingStays(next, steps[1..], t, job);
      }
    }
  }

  // ---- What keeps a program from being destroyed ----

  lemma ReferredSurvives(s: State, step: Step, x: nat, h: Holder)
    requires Books(s) && Enabled(s, step) && x in s.slots && Target(s.refs, h) == Some(s.slots[x].prog)
    ensures x in Apply(s, step).slots && Apply(s, step).slots[x].prog == s.slots[x].prog
  {
    if Destroys(s, step, s.slots[x].prog) {
      ZeroMeansUnheld(s.refs, step.p, h);
    }
    SlotsStay(s, step, x);
  }

  /** A VM exists as long as any program pointer or local variable goes on to refer to its program. */
  lemma {:induction false} ReferenceOutlives(s: State, steps: seq<Step>, t: State, x: nat, h: Holder)
    requires Inv(s) && Run(s, steps, t) && !t.fault && !h.SlotRef?
    requires x in s.slots && Target(s.refs, h) == Some(s.slots[x].prog)
    requires forall i :: 0 <= i < |steps| ==> !Writer(steps[i], h)
    ensures x in t.slots && t.slots[x].prog == s.slots[x].prog
    decreases |steps|
  {
    if steps != [] {
      var next := Apply(s, steps[0]);
      Advances(s, steps, t);
      ReferredSurvives(s, steps[0], x, h);
      WriterCovers(s, steps[0], h);
      OtherTargetsStay(s, steps[0], h);
      forall i | 0 <= i < |steps[1..]| ensures !Writer(steps[1..][i], h) {
        assert steps[1..][i] == steps[i + 1];
      }
      ReferenceOutlives(next, steps[1..], t, x, h);
    }
  }

  // ---- Whom the destructor waits for ----

  /** A running reset has a reference to the program of its VM. */
  ghost predicate RunningOk(s: State) {
    forall v :: v in s.jobs.running ==>
      && s.jobs.running[v].slot in s.slots
      && Target(s.refs, Local(v)) == Some(s.slots[s.jobs.running[v].slot].prog)
  }

  lemma RunningSpared(s: State, step: Step, v: nat)
    requires Enabled(s, step) && v in s.jobs.running && step != Drop(v)
    requires Local(v) in s.refs.targets && v !in s.held
    ensures Local(v) !in Writes(s, step)
  {
  }

  lemma StartedReset(s: State, x: nat, v: nat, node: nat)
    requires Inv(s) && x in s.pending && !Orphaned(s, x)
    ensures var t := Finish(s.(pending := s.pending - multiset{x}), x, v, node);
            x in t.slots && Target(t.refs, Local(v)) == Some(t.slots[x].prog)
  {
    S.UsedFacts(s, x);
    TargetAfterMove(s.refs, Local(v), SlotRef(x), Local(v));
  }

  lemma RunningStays(s: State, step: Step, v: nat)
    requires Books(s) && RunningOk(s) && Enabled(s, step) && v in s.jobs.running && step != Drop(v)
    ensures var x := s.jobs.running[v].slot;
            && x in Act(s, step).slots
            && Target(Act(s, step).refs, Local(v)) == Some(Act(s, step).slots[x].prog)
  {
    RunningSpared(s, step, v);
    OtherTargetsStay(s, step, Local(v));
    ReferredSurvives(s, step, s.jobs.running[v].slot, Local(v));
  }

  /** What a step makes of the running resets. */
  lemma RunningAfter(s: State, step: Step, v: nat)
    requires Enabled(s, step) && v in JobsAfter(s, step).running
    ensures step != Drop(v)
    ensures if step.ResetTask? && step.v == v then JobsAfter(s, step).running[v].slot == step.x
            else v in s.jobs.running && JobsAfter(s, step).running[v] == s.jobs.running[v]
  {
  }

  lemma StepRunning(s: State, step: Step)
    requires Inv(s) && RunningOk(s) && Enabled(s, step) && !Crashes(s, step)
    ensures RunningOk(Apply(s, step))
  {
    var t := Apply(s, step);
    forall v | v in t.jobs.running
      ensures && t.jobs.running[v].slot in t.slots
              && Target(t.refs, Local(v)) == Some(t.slots[t.jobs.running[v].slot].prog)
    {
      RunningAfter(s, step, v);
      if step.ResetTask? && step.v == v {
        StartedReset(s, step.x, v, step.node);
      } else {
        RunningStays(s, step, v);
      }
    }
  }

  lemma {:induction false} RunRunning(s: State, steps: seq<Step>, t: State)
    requires Inv(s) && RunningOk(s) && Run(s, steps, t) && !t.fault
    ensures Inv(t) && RunningOk(t)
    decreases |steps|
  {
    if steps != [] {
      var next := Apply(s, steps[0]);
      Advances(s, steps, t);
      StepRunning(s, steps[0]);
      RunRunning(next, steps[1..], t);
    }
  }

  /**
   When a destructor begins, no VM of its program is reserved, waits for its reset, or is
   in a reset that has not dropped its reference: there is no other reset to wait for.
   */
  lemma DestructorAlone(steps: seq<Step>, t: State, p: nat, x: nat)
    requires Run(INITIAL_STATE, steps, t) && !t.fault && Enabled(t, Destroy(p)) && x in t.slots && t.slots[x].prog == p
    ensures x !in t.held.Values && x !in t.pending
    ensures forall v :: v in t.jobs.running ==> t.jobs.running[v].slot != x
  {
    Initially();
    RunRunning(INITIAL_STATE, steps, t);
    if Uses(t.held, t.pending, x) > 0 {
      S.UsedSurvives(t, p, x);
    }
    forall v | v in t.held ensures t.held[v] != x {
      if t.held[v] == x {
        S.HeldIsUsed(t, v);
      }
    }
    forall v | v in t.jobs.running ensures t.jobs.running[v].slot != x {
      ZeroMeansUnheld(t.refs, p, Local(v));
    }
  }

  // ---- When it waits for itself ----

  /** The step drops the last reference to the program. */
  predicate DropsLast(s: State, step: Step, p: nat)
    requires Enabled(s, step)
  {
    && p in s.refs.counts && s.refs.counts[p] > 0
    && p in Apply(s, step).refs.counts && Apply(s, step).refs.counts[p] == 0
  }

  /** The reset that the step is the end of. */
  function EnderOf(s: State, step: Step): Option<Job> {
    if step.Drop? then RunningIn(s.jobs, step.v) else None
  }

  function EndedBy(jobs: Jobs, p: nat): Option<Job> {
    if p in jobs.ended then Some(jobs.ended[p]) else None
  }

  /** Only pointer assignments change a count, beside the creation and the destruction of programs. */
  predicate Counts(step: Step) {
    step.Create? || step.Load? || step.Exchange? || step.Unload? || step.Drop? || step.Destroy?
  }

  lemma FinishCounts(s: State, x: nat, v: nat, node: nat)
    requires Local(v) !in s.refs.targets
    ensures Finish(s, x, v, node).refs.counts == s.refs.counts
  {
  }

  /** No assignment of the step drops a reference. */
  predicate Tidy(s: State, step: Step) {
    match step
    case Dequeue(_, _, x, _) => SlotRef(x) !in s.refs.targets
    case Free(v, _) => Local(v) !in s.refs.targets
    case ResetTask(_, v, _) => Local(v) !in s.refs.targets
    case _ => true
  }

  lemma TidyStep(s: State, step: Step)
    requires Inv(s) && Enabled(s, step)
    ensures Tidy(s, step)
  {
    if step.Dequeue? {
      DequeueTidy(s, step.v, step.node, step.x, step.soft);
    }
  }

  lemma TidyCounts(s: State, step: Step)
    requires Enabled(s, step) && Tidy(s, step) && !Counts(step)
    ensures Act(s, step).refs.counts == s.refs.counts
  {
    match step
    case Free(v, node) => FinishCounts(s.(held := s.held - {v}), s.held[v], v, node);
    case ResetTask(x, v, node) => FinishCounts(s.(pending := s.pending - multiset{x}), x, v, node);
    case _ =>
  }

  lemma CountsStay(s: State, step: Step)
    requires Inv(s) && Enabled(s, step) && !Counts(step)
    ensures Act(s, step).refs.counts == s.refs.counts
  {
    TidyStep(s, step);
    TidyCounts(s, step);
  }

  lemma DequeueTidy(s: State, v: nat, node: nat, x: nat, soft: bool)
    requires Inv(s) && Enabled(s, Dequeue(v, node, x, soft))
    ensures SlotRef(x) !in s.refs.targets
  {
    DequeueReserves(s, v, node, x, soft);
    assert QueuesOwn(s, s.refs.targets[Local(v)]);
    S.QueuedFacts(s, s.refs.targets[Local(v)], node, x);
  }

  /** An assignment drops the last reference to a program exactly as `LastReference` tells beforehand. */
  lemma AssignDrops(r: Refs, h: Holder, t: Option<nat>, p: nat)
    requires Exact(r) && p in r.counts && r.counts[p] > 0
    ensures p in Assign(r, h, t).counts
    ensures Assign(r, h, t).counts[p] == 0 <==> LastReference(r, h) == Some(p) && t != Some(p)
  {
  }

  lemma SetPtrDrops(s: State, h: Holder, t: Option<nat>, p: nat)
    requires Books(s) && p in s.refs.counts && s.refs.counts[p] > 0 && (t.Some? ==> t.value in s.programs)
    ensures p in SetPtr(s, h, t).refs.counts
    ensures SetPtr(s, h, t).refs.counts[p] == 0 <==> LastReference(s.refs, h) == Some(p) && t != Some(p)
  {
    AssignDrops(s.refs, h, t, p);
  }

  /** Programs lose their last reference only to pointer assignments. */
  lemma OnlyPointersDrop(s: State, step: Step, p: nat)
    requires Inv(s) && Enabled(s, step) && DropsLast(s, step, p)
    ensures step.Exchange? || step.Unload? || step.Drop?
  {
    if !Counts(step) {
      CountsStay(s, step);
    } else {
      NewReferenceKeeps(s, step, p);
    }
  }

  lemma NewReferenceKeeps(s: State, step: Step, p: nat)
    requires Books(s) && Enabled(s, step) && DropsLast(s, step, p) && Counts(step)
    ensures step.Exchange? || step.Unload? || step.Drop?
  {
    if step.Create? {
      AssignDrops(Refs(s.refs.targets, s.refs.counts[step.p := 0]), Local(step.v), Some(step.p), p);
    } else if step.Load? {
      SetPtrDrops(s, Local(step.v), Target(s.refs, Pointer(step.loc)), p);
    }
  }

  lemma LastDropNoted(s: State, step: Step, p: nat)
    requires Inv(s) && Enabled(s, step) && DropsLast(s, step, p)
    ensures EndedBy(Apply(s, step).jobs, p) == EnderOf(s, step)
  {
    OnlyPointersDrop(s, step, p);
    match step
    case Exchange(loc, v) => SetPtrDrops(s, Pointer(loc), Target(s.refs, Local(v)), p);
    case Unload(loc) => SetPtrDrops(s, Pointer(loc), None, p);
    case Drop(v) => SetPtrDrops(s, Local(v), None, p);
  }

  lemma SetPtrZero(s: State, h: Holder, k: Holder, p: nat)
    requires Books(s) && p in s.refs.counts && s.refs.counts[p] == 0
    ensures var t := SetPtr(s, h, Target(s.refs, k));
            p in t.refs.counts && t.refs.counts[p] == 0
    ensures var t := SetPtr(s, h, None);
            p in t.refs.counts && t.refs.counts[p] == 0
  {
    ZeroMeansUnheld(s.refs, p, h);
    ZeroMeansUnheld(s.refs, p, k);
  }

  lemma CreateZero(s: State, v: nat, q: nat, p: nat)
    requires Books(s) && Unused(s, v) && p in s.refs.counts && s.refs.counts[p] == 0 && q !in s.programs
    ensures var r := Assign(Refs(s.refs.targets, s.refs.counts[q := 0]), Local(v), Some(q));
            p in r.counts && r.counts[p] == 0
  {
  }

  lemma CountingZero(s: State, step: Step, p: nat)
    requires Books(s) && Enabled(s, step) && step != Destroy(p) && Counts(step)
    requires p in s.refs.counts && s.refs.counts[p] == 0
    ensures p in Act(s, step).refs.counts && Act(s, step).refs.counts[p] == 0
  {
    match step
    case Create(v, q, _) => CreateZero(s, v, q, p);
    case Load(v, loc) => SetPtrZero(s, Local(v), Pointer(loc), p);
    case Exchange(loc, v) => SetPtrZero(s, Pointer(loc), Local(v), p);
    case Unload(loc) => SetPtrZero(s, Pointer(loc), Pointer(loc), p);
    case Drop(v) => SetPtrZero(s, Local(v), Local(v), p);
    case Destroy(_) =>
  }

  /** A program without references is given none. */
  lemma ZeroStays(s: State, step: Step, p: nat)
    requires Inv(s) && Enabled(s, step) && step != Destroy(p)
    requires p in s.refs.counts && s.refs.counts[p] == 0
    ensures p in Act(s, step).refs.counts && Act(s, step).refs.counts[p] == 0
  {
    if Counts(step) {
      CountingZero(s, step, p);
    } else {
      CountsStay(s, step);
    }
  }

  /** Who ended it stays noted. */
  lemma EnderKept(s: State, step: Step, p: nat)
    requires Enabled(s, step) && p in s.programs
    requires p in s.refs.counts && s.refs.counts[p] == 0
    ensures EndedBy(JobsAfter(s, step), p) == EndedBy(s.jobs, p)
  {
  }

  lemma EnderStep(s: State, step: Step, p: nat)
    requires Inv(s) && Enabled(s, step) && step != Destroy(p)
    requires p in s.refs.counts && s.refs.counts[p] == 0
    ensures var t := Apply(s, step);
            p in t.refs.counts && t.refs.counts[p] == 0 && EndedBy(t.jobs, p) == EndedBy(s.jobs, p)
  {
    ZeroStays(s, step, p);
    EnderKept(s, step, p);
  }

  lemma {:induction false} EnderStays(s: State, steps: seq<Step>, t: State, p: nat)
    requires Inv(s) && Run(s, steps, t) && !t.fault
    requires p in s.refs.counts && s.refs.counts[p] == 0
    requires Destroy(p) !in steps
    ensures EndedBy(t.jobs, p) == EndedBy(s.jobs, p)
    decreases |steps|
  {
    if steps != [] {
      Advances(s, steps, t);
      EnderStep(s, steps[0], p);
      EnderStays(Apply(s, steps[0]), steps[1..], t, p);
    }
  }

  /**
   The destructor of a program waits for itself, whatever else happens between the drop of
   the last reference and its beginning, if and only if that reference was dropped by the
   reset of a VM other than the first and the future of that reset is the one the VM holds.
   */
  lemma SelfWaitExact(s: State, step: Step, p: nat, between: seq<Step>, t: State)
    requires Inv(s) && Enabled(s, step) && DropsLast(s, step, p)
    requires Run(Apply(s, step), between, t) && !t.fault && Enabled(t, Destroy(p))
    requires Destroy(p) !in between
    ensures p in Apply(t, Destroy(p)).jobs.stuck <==>
              && EnderOf(s, step).Some?
              && var job := EnderOf(s, step).value;
                 && job.slot in t.slots && !t.slots[job.slot].first
                 && job.slot in t.jobs.stored && t.jobs.stored[job.slot] == job
  {
    if Crashes(s, step) {
      CrashFaults(s, step);
      FaultStays(Apply(s, step), between, t);
    }
    LastDropNoted(s, step, p);
    StepKeeps(s, step);
    EnderStays(Apply(s, step), between, t, p);
    WaitsAtDestroy(t, p);
  }

  lemma WaitsAtDestroy(t: State, p: nat)
    requires Enabled(t, Destroy(p))
    ensures p in Apply(t, Destroy(p)).jobs.stuck <==> SelfWaits(t, p)
  {
  }

  /** A program whose destructor waits for itself is never destroyed. */
  lemma {:induction false} StuckStays(s: State, steps: seq<Step>, t: State, p: nat)
    requires Run(s, steps, t) && p in s.programs && p in s.jobs.stuck
    ensures p in t.programs && p in t.jobs.stuck
    decreases |steps|
  {
    if steps != [] {
      StepStuck(s, steps[0], p);
      StuckStays(Apply(s, steps[0]), steps[1..], t, p);
    }
  }

  lemma StepStuck(s: State, step: Step, p: nat)
    requires Enabled(s, step) && p in s.programs && p in s.jobs.stuck
    ensures p in Apply(s, step).programs && p in Apply(s, step).jobs.stuck
  {
    ProgramsStay(s, step, p);
  }

  lemma FinishPrograms(s: State, x: nat, v: nat, node: nat, p: nat)
    ensures p in s.programs ==> p in Finish(s, x, v, node).programs
  {
  }

  lemma ProgramsStay(s: State, step: Step, p: nat)
    requires Enabled(s, step) && p in s.programs && !Destroys(s, step, p)
    ensures p in Act(s, step).programs
  {
    match step
    case Free(v, node) => FinishPrograms(s.(held := s.held - {v}), s.held[v], v, node, p);
    case ResetTask(y, v, node) => FinishPrograms(s.(pending := s.pending - multiset{y}), y, v, node, p);
    case _ =>
  }
}
