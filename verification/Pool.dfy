/**
 The VM pool and the hot-swap of programs, as a state machine whose steps are the
 atomic actions of concurrent threads: initialization forks VMs into a program's
 queues, requests load a tenant's program pointer, dequeue a VM, run it and free
 it, deferred reset tasks put VMs back, and live updates replace or drop the
 pointer at any moment. Handing a reset over and storing its future are two steps,
 and whoever drops the last reference runs the destructor. A step that would touch a
 destroyed program or VM sets `fault`.
 */
module Pool {
  import opened Options
  import opened SharedPtr
  import M = Machine

  /** One queue per NUMA node; the queues of one program are not FIFO across producers. */
  const NODES: nat := 4

  datatype Completion = Pending | Succeeded | Failed

  /** `lost` says that the main VM was destroyed by an initialization that failed with VMs already queued. */
  datatype Program = Program(
    main: M.Vm,
    initializing: bool,
    completion: Completion,
    queues: seq<multiset<nat>>,
    lost: bool)

  /**
   `first` marks the VM that the destructor does not wait for. `ran`, `soft`, `errored` and
   `resets` record the slot's history since its last reset or reservation.
   */
  datatype Slot = Slot(
    prog: nat,
    vm: M.Vm,
    first: bool,
    started: bool,
    ran: bool,
    soft: bool,
    errored: bool,
    resets: nat)

  /** A reset handed to the thread of a VM; the number tells the resets of one VM apart. */
  datatype Job = Job(slot: nat, number: nat)

  /**
   What is known of resets beside the slots: how many were handed over for each VM, the
   futures not stored yet, the future each VM holds, the resets that have taken over
   their VM's reference and still have it in a local variable, the resets that dropped
   the last reference to a program, and the programs whose destructor waits forever.
   */
  datatype Jobs = Jobs(
    handed: map<nat, nat>,
    storing: set<Job>,
    stored: map<nat, Job>,
    running: map<nat, Job>,
    ended: map<nat, Job>,
    stuck: set<nat>)

  datatype State = State(
    programs: map<nat, Program>,
    slots: map<nat, Slot>,
    refs: Refs,
    held: map<nat, nat>,
    pending: multiset<nat>,
    jobs: Jobs,
    fault: bool)

  datatype Step =
    | Create(v: nat, p: nat, main: M.Vm)
    | FirstVm(p: nat, x: nat, maxRegex: nat)
    | InitFails(p: nat)
    | InitAborts(p: nat)
    | ForkVm(p: nat, x: nat, maxRegex: nat)
    | ForkReady(x: nat, node: nat)
    | InitDone(p: nat)
    | Load(v: nat, loc: nat)
    | Exchange(loc: nat, v: nat)
    | Unload(loc: nat)
    | Drop(v: nat)
    | Dequeue(v: nat, node: nat, x: nat, soft: bool)
    | Guest(v: nat, vm: M.Vm)
    | ErrorHandling(v: nat)
    | Free(v: nat, node: nat)
    | StoreFuture(job: Job)
    | ResetTask(x: nat, v: nat, node: nat)
    | Destroy(p: nat)

  const NO_JOBS := Jobs(map[], {}, map[], map[], map[], {})

  const INITIAL_STATE := State(map[], map[], Refs(map[], map[]), map[], multiset{}, NO_JOBS, false)

  // ---- The steps ----

  predicate Unused(s: State, v: nat) {
    Local(v) !in s.refs.targets && v !in s.held
  }

  function Faulted(s: State): State {
    s.(fault := true)
  }

  /** A `shared_ptr` assignment; touching the control block of a destroyed program is a fault. */
  function SetPtr(s: State, h: Holder, t: Option<nat>): State {
    if (t.Some? && t.value !in s.programs) || (h in s.refs.targets && s.refs.targets[h] !in s.programs)
    then Faulted(s)
    else s.(refs := Assign(s.refs, h, t))
  }

  function Enqueue(prog: Program, node: nat, x: nat): Program {
    if node < |prog.queues| then prog.(queues := prog.queues[node := prog.queues[node] + multiset{x}]) else prog
  }

  function NewSlot(p: nat, main: M.Vm, maxRegex: nat, started: bool): Slot {
    Slot(p, M.Fork(main, maxRegex), started, started, false, false, false, 0)
  }

  function CreateStep(s: State, v: nat, p: nat, main: M.Vm): State {
    var program := Program(main, true, Pending, [multiset{}, multiset{}, multiset{}, multiset{}], false);
    s.(programs := s.programs[p := program],
       refs := Assign(Refs(s.refs.targets, s.refs.counts[p := 0]), Local(v), Some(p)))
  }

  /** The first VM is queued on node 0 before the program accepts requests. */
  function FirstVmStep(s: State, p: nat, x: nat, maxRegex: nat): State
    requires p in s.programs
  {
    s.(slots := s.slots[x := NewSlot(p, s.programs[p].main, maxRegex, true)],
       programs := s.programs[p := Enqueue(s.programs[p], 0, x).(completion := Succeeded)])
  }

  function ForkVmStep(s: State, p: nat, x: nat, maxRegex: nat): State
    requires p in s.programs
  {
    s.(slots := s.slots[x := NewSlot(p, s.programs[p].main, maxRegex, false)])
  }

  function ForkReadyStep(s: State, x: nat, node: nat): State
    requires x in s.slots && s.slots[x].prog in s.programs
  {
    var p := s.slots[x].prog;
    s.(slots := s.slots[x := s.slots[x].(started := true)],
       programs := s.programs[p := Enqueue(s.programs[p], node, x)])
  }

  function InitStep(s: State, p: nat, initializing: bool, completion: Completion, lost: bool): State
    requires p in s.programs
  {
    var program := s.programs[p].(initializing := initializing, completion := completion, lost := lost);
    s.(programs := s.programs[p := program])
  }

  function GuestStep(s: State, v: nat, vm: M.Vm): State
    requires v in s.held && s.held[v] in s.slots
  {
    s.(slots := s.slots[s.held[v] := s.slots[s.held[v]].(vm := vm, ran := true)])
  }

  function ErrorStep(s: State, v: nat): State
    requires v in s.held && s.held[v] in s.slots
  {
    var slot := s.slots[s.held[v]];
    s.(slots := s.slots[s.held[v] := slot.(vm := slot.vm.(resetNeeded := true), errored := true)])
  }

  function DestroyStep(s: State, p: nat): State {
    s.(programs := s.programs - {p},
       slots := map x | x in s.slots && s.slots[x].prog != p :: s.slots[x],
       refs := Refs(s.refs.targets, s.refs.counts - {p}))
  }

  /** `reserve_vm` after a successful wait on the queue. */
  function DequeueStep(s: State, v: nat, node: nat, x: nat, soft: bool): State
    requires Local(v) in s.refs.targets
  {
    var p := s.refs.targets[Local(v)];
    if p !in s.programs || x !in s.slots || node >= |s.programs[p].queues| then Faulted(s)
    else Reserve(s, p, v, node, x, soft)
  }

  function Reserve(s: State, p: nat, v: nat, node: nat, x: nat, soft: bool): State
    requires p in s.programs && x in s.slots && node < |s.programs[p].queues|
  {
    s.(programs := s.programs[p := Dequeued(s.programs[p], node, x)],
       slots := s.slots[x := s.slots[x].(vm := s.slots[x].vm.(softReset := soft), soft := soft, errored := false)],
       refs := Move(s.refs, SlotRef(x), Local(v)),
       held := s.held[v := x])
  }

  function Dequeued(prog: Program, node: nat, x: nat): Program
    requires node < |prog.queues|
  {
    prog.(queues := prog.queues[node := prog.queues[node] - multiset{x}])
  }

  /** The tail of the free function: recycle the VM with its main VM, take over its reference, queue it. */
  function Finish(s: State, x: nat, v: nat, node: nat): State {
    if x !in s.slots || s.slots[x].prog !in s.programs || s.programs[s.slots[x].prog].lost then Faulted(s)
    else
      var target := Target(s.refs, SlotRef(x));
      if target.None? || target.value !in s.programs then Faulted(s)
      else Requeue(s, target.value, x, v, node)
  }

  function Requeue(s: State, p: nat, x: nat, v: nat, node: nat): State
    requires p in s.programs && x in s.slots && s.slots[x].prog in s.programs
  {
    s.(slots := s.slots[x := Recycled(s.slots[x], s.programs[s.slots[x].prog].main)],
       refs := Move(s.refs, Local(v), SlotRef(x)),
       programs := s.programs[p := Enqueue(s.programs[p], node, x)])
  }

  function Recycled(slot: Slot, main: M.Vm): Slot {
    var wasReset := M.IsResetNeeded(slot.vm);
    slot.(vm := M.Recycle(slot.vm, main),
          ran := slot.ran && !wasReset,
          resets := slot.resets + (if wasReset then 1 else 0))
  }

  function FreeStep(s: State, v: nat, node: nat): State
    requires v in s.held
  {
    var x := s.held[v];
    if x !in s.slots then Faulted(s)
    else if M.IsResetNeeded(s.slots[x].vm) then Defer(s, v)
    else Finish(s.(held := s.held - {v}), x, v, node)
  }

  /** The reset is left to a job on the VM's own thread, whose future is yet to be stored. */
  function Defer(s: State, v: nat): State
    requires v in s.held
  {
    s.(held := s.held - {v}, pending := s.pending + multiset{s.held[v]})
  }

  // ---- Resets and their futures ----

  function Latest(jobs: Jobs, x: nat): nat {
    if x in jobs.handed then jobs.handed[x] else 0
  }

  function HandOver(jobs: Jobs, x: nat): Jobs {
    var number := Latest(jobs, x) + 1;
    jobs.(handed := jobs.handed[x := number], storing := jobs.storing + {Job(x, number)})
  }

  /** The program that loses its last reference when `h` stops referring to it. */
  function LastReference(r: Refs, h: Holder): Option<nat> {
    if h in r.targets && r.targets[h] in r.counts && r.counts[r.targets[h]] == 1 then Some(r.targets[h]) else None
  }

  /** Who ends a program is noted when its last reference is dropped: a reset, or nobody of interest. */
  function EndBy(jobs: Jobs, p: Option<nat>, job: Option<Job>): Jobs {
    if p.None? then jobs
    else jobs.(ended := if job.None? then jobs.ended - {p.value} else jobs.ended[p.value := job.value])
  }

  function RunningIn(jobs: Jobs, v: nat): Option<Job> {
    if v in jobs.running then Some(jobs.running[v]) else None
  }

  /**
   The destructor waits for the future that a VM other than the first holds. It runs in the
   thread that dropped the last reference, so it may wait for the very reset it runs in.
   */
  predicate SelfWaits(s: State, p: nat) {
    p in s.jobs.ended &&
    var job := s.jobs.ended[p];
    && job.slot in s.slots && !s.slots[job.slot].first
    && job.slot in s.jobs.stored && s.jobs.stored[job.slot] == job
  }

  function JobsAfter(s: State, step: Step): Jobs {
    var jobs := s.jobs;
    match step
    case Create(_, p, _) => jobs.(ended := jobs.ended - {p})
    case FirstVm(_, x, _) => jobs.(stored := jobs.stored - {x})
    case ForkVm(_, x, _) => jobs.(stored := jobs.stored - {x})
    case Exchange(loc, v) =>
      if Target(s.refs, Pointer(loc)) == Target(s.refs, Local(v)) then jobs
      else EndBy(jobs, LastReference(s.refs, Pointer(loc)), None)
    case Unload(loc) => EndBy(jobs, LastReference(s.refs, Pointer(loc)), None)
    case Drop(v) =>
      EndBy(jobs, LastReference(s.refs, Local(v)), RunningIn(jobs, v)).(running := jobs.running - {v})
    case Free(v, _) => if v in s.held && Deferred(s, s.held[v]) then HandOver(jobs, s.held[v]) else jobs
    case StoreFuture(job) => jobs.(storing := jobs.storing - {job}, stored := jobs.stored[job.slot := job])
    case ResetTask(x, v, _) => jobs.(running := jobs.running[v := Job(x, Latest(jobs, x))])
    case Destroy(p) => if SelfWaits(s, p) then jobs.(stuck := jobs.stuck + {p}) else jobs
    case _ => jobs
  }

  /** A slot number that names nothing, not even a slot that a future is yet to be stored in. */
  predicate Fresh(s: State, x: nat) {
    x !in s.slots && forall job :: job in s.jobs.storing ==> job.slot != x
  }

  // ---- Steps in general ----

  /** What the code and the assumptions on its environment allow as the next step. */
  predicate Enabled(s: State, step: Step) {
    match step
    case Create(v, p, main) => Unused(s, v) && p !in s.programs
    case FirstVm(p, x, _) =>
      p in s.programs && s.programs[p].initializing && s.programs[p].completion.Pending? && Fresh(s, x)
    case InitFails(p) => p in s.programs && s.programs[p].initializing && s.programs[p].completion.Pending?
    // An exception while further VMs are created, when the first one is already in use.
    case InitAborts(p) => p in s.programs && s.programs[p].initializing && s.programs[p].completion.Succeeded?
    case ForkVm(p, x, _) =>
      p in s.programs && s.programs[p].initializing && s.programs[p].completion.Succeeded? && Fresh(s, x)
    case ForkReady(x, node) =>
      x in s.slots && !s.slots[x].started && s.slots[x].prog in s.programs &&
      s.programs[s.slots[x].prog].initializing && s.programs[s.slots[x].prog].completion.Succeeded? &&
      node < NODES
    case InitDone(p) => p in s.programs && !s.programs[p].completion.Pending?
    case Load(v, loc) => Unused(s, v) && Pointer(loc) in s.refs.targets
    case Exchange(loc, v) => Local(v) in s.refs.targets && v !in s.jobs.running
    case Unload(loc) => true
    case Drop(v) => Local(v) in s.refs.targets
    case Dequeue(v, node, x, _) =>
      Local(v) in s.refs.targets && v !in s.held && v !in s.jobs.running && node < NODES &&
      // Waiting on the queue of a destroyed program is allowed here; the step then faults.
      (s.refs.targets[Local(v)] in s.programs ==>
        && !s.programs[s.refs.targets[Local(v)]].completion.Pending?
        && node < |s.programs[s.refs.targets[Local(v)]].queues|
        && x in s.programs[s.refs.targets[Local(v)]].queues[node])
    case Guest(v, vm) =>
      v in s.held && s.held[v] in s.slots &&
      // Only the host writes the two reset marks.
      vm.resetNeeded == s.slots[s.held[v]].vm.resetNeeded && vm.softReset == s.slots[s.held[v]].vm.softReset
    case ErrorHandling(v) => v in s.held && s.held[v] in s.slots
    case Free(v, node) => v in s.held && node < NODES
    case StoreFuture(job) => job in s.jobs.storing
    case ResetTask(x, v, node) =>
      x in s.pending && Unused(s, v) && node < NODES &&
      // The thread of a VM does one thing at a time.
      forall w :: w in s.jobs.running ==> s.jobs.running[w].slot != x
    case Destroy(p) =>
      p in s.programs && p in s.refs.counts && s.refs.counts[p] == 0 && !s.programs[p].initializing &&
      p !in s.jobs.stuck
  }

  /** The step without its effect on what is known of resets. */
  function Act(s: State, step: Step): State
    requires Enabled(s, step)
  {
    match step
    case Create(v, p, main) => CreateStep(s, v, p, main)
    case FirstVm(p, x, maxRegex) => FirstVmStep(s, p, x, maxRegex)
    case InitFails(p) => InitStep(s, p, s.programs[p].initializing, Failed, s.programs[p].lost)
    case InitAborts(p) => InitStep(s, p, s.programs[p].initializing, Failed, true)
    case ForkVm(p, x, maxRegex) => ForkVmStep(s, p, x, maxRegex)
    case ForkReady(x, node) => ForkReadyStep(s, x, node)
    case InitDone(p) => InitStep(s, p, false, s.programs[p].completion, s.programs[p].lost)
    case Load(v, loc) => SetPtr(s, Local(v), Target(s.refs, Pointer(loc)))
    case Exchange(loc, v) => SetPtr(s, Pointer(loc), Target(s.refs, Local(v)))
    case Unload(loc) => SetPtr(s, Pointer(loc), None)
    case Drop(v) => SetPtr(s, Local(v), None)
    case Dequeue(v, node, x, soft) => DequeueStep(s, v, node, x, soft)
    case Guest(v, vm) => GuestStep(s, v, vm)
    case ErrorHandling(v) => ErrorStep(s, v)
    case Free(v, node) => FreeStep(s, v, node)
    case StoreFuture(job) => if job.slot in s.slots then s else Faulted(s)
    case ResetTask(x, v, node) => Finish(s.(pending := s.pending - multiset{x}), x, v, node)
    case Destroy(p) => if SelfWaits(s, p) then s else DestroyStep(s, p)
  }

  function Apply(s: State, step: Step): State
    requires Enabled(s, step)
  {
    Act(s, step).(jobs := JobsAfter(s, step))
  }

  /**
   The step recycles a VM of a program whose main VM is gone, to which the pointer is
   followed also where no reset is needed, or stores a future in a VM that is gone.
   */
  predicate Crashes(s: State, step: Step) {
    match step
    case Free(v, _) => v in s.held && !Deferred(s, s.held[v]) && Orphaned(s, s.held[v])
    case ResetTask(x, _, _) => Orphaned(s, x)
    case StoreFuture(job) => job.slot !in s.slots
    case _ => false
  }

  predicate Orphaned(s: State, x: nat) {
    x in s.slots && s.slots[x].prog in s.programs && s.programs[s.slots[x].prog].lost
  }

  predicate Deferred(s: State, x: nat) {
    x in s.slots && M.IsResetNeeded(s.slots[x].vm)
  }

  ghost predicate Run(s: State, steps: seq<Step>, t: State)
    decreases |steps|
  {
    if steps == [] then s == t
    else Enabled(s, steps[0]) && Run(Apply(s, steps[0]), steps[1..], t)
  }

  // ---- What every reachable state satisfies ----

  /** How often slot `x` is queued, over the queues of one program. */
  function Queued(queues: seq<multiset<nat>>, x: nat): nat {
    if |queues| == NODES then queues[0][x] + queues[1][x] + queues[2][x] + queues[3][x] else 0
  }

  ghost function HoldersOfSlot(held: map<nat, nat>, x: nat): set<nat> {
    set v | v in held && held[v] == x
  }

  /** How many reservations and reset tasks name slot `x`. */
  ghost function Uses(held: map<nat, nat>, pending: multiset<nat>, x: nat): nat {
    |HoldersOfSlot(held, x)| + pending[x]
  }

  /** The books: reference counts are exact, and everything named anywhere exists. */
  ghost predicate Books(s: State) {
    && !s.fault
    && s.programs.Keys == s.refs.counts.Keys
    && Exact(s.refs)
    && (forall x :: x in s.slots ==> s.slots[x].prog in s.programs)
    && (forall v :: v in s.held ==> s.held[v] in s.slots)
    && (forall x :: x in s.pending ==> x in s.slots)
    && (forall v :: v in s.held ==> Local(v) !in s.refs.targets)
    && (forall x :: SlotRef(x) in s.refs.targets ==> x in s.slots)
  }

  function QueuesOf(s: State, p: nat): seq<multiset<nat>> {
    if p in s.programs then s.programs[p].queues else []
  }

  /** The queues of a program hold VMs of that program only. */
  ghost predicate QueuesOwn(s: State, p: nat) {
    && |QueuesOf(s, p)| == NODES
    && forall x :: Queued(QueuesOf(s, p), x) > 0 ==> x in s.slots && s.slots[x].prog == p
  }

  /** All that the state says about one VM. */
  datatype Facts = Facts(slot: Slot, main: Option<M.Vm>, queued: nat, uses: nat, ref: Option<nat>)

  function MainOf(s: State, p: nat): Option<M.Vm> {
    if p in s.programs then Some(s.programs[p].main) else None
  }

  ghost function FactsOf(s: State, x: nat): Facts
    requires x in s.slots
  {
    Facts(s.slots[x],
          MainOf(s, s.slots[x].prog),
          Queued(QueuesOf(s, s.slots[x].prog), x),
          Uses(s.held, s.pending, x),
          Target(s.refs, SlotRef(x)))
  }

  /** A started VM is in exactly one place: a queue entry of its program, a reservation, or a reset task. */
  ghost predicate OnePlace(f: Facts) {
    f.queued + f.uses == if f.slot.started then 1 else 0
  }

  /** A VM has a program reference exactly while reserved or resetting, and it is to its own program. */
  ghost predicate OwnReference(f: Facts) {
    f.ref == if f.uses > 0 then Some(f.slot.prog) else None
  }

  /** The VM is as it was derived from its main VM: at the fork, or by the latest reset. */
  ghost predicate Clean(slot: Slot, main: Option<M.Vm>) {
    && main.Some?
    && M.CleanFor(slot.vm, main.value)
    && slot.vm.waiting == (slot.resets == 0 || main.value.waiting)
  }

  /**
   A VM whose guest has not run since it was derived is clean. Outside a request
   no reset mark is left over, and a VM that is ephemeral, was reserved with soft
   reset or failed in its last request has not run since it was derived.
   */
  ghost predicate Isolated(f: Facts) {
    var vm := f.slot.vm;
    && (!f.slot.ran ==> Clean(f.slot, f.main))
    && (f.uses > 0 ==> vm.softReset == f.slot.soft && (f.slot.errored ==> vm.resetNeeded))
    && (f.uses == 0 ==>
          && !vm.softReset && !vm.resetNeeded
          && (vm.ephemeral || f.slot.soft || f.slot.errored ==> !f.slot.ran))
  }

  ghost predicate FactsOk(f: Facts) {
    OnePlace(f) && OwnReference(f) && Isolated(f)
  }

  ghost predicate Queues(s: State) {
    forall p :: p in s.programs ==> QueuesOwn(s, p)
  }

  ghost predicate Slots(s: State) {
    forall x :: x in s.slots ==> FactsOk(FactsOf(s, x))
  }

  ghost predicate Inv(s: State) {
    Books(s) && Queues(s) && Slots(s)
  }
}
