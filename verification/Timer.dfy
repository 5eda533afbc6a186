/**
 The timer system: a vector of events indexed by timer id, a queue of time events
 ordered by deadline, and a stack of ids to reuse. One worker fires due timers and
 drops the lock while a handler runs, so adds and removals interleave with the
 firing in flight. Times and periods are microseconds.
 */
module Timer {
  import opened Options

  datatype Event = Event(start: int, period: int, valid: bool)

  datatype TimeEvent = TimeEvent(next: int, ref: nat)

  /** `firing` is the time event whose handler is running; `fired` counts firings since each id's latest add. */
  datatype State = State(
    events: seq<Event>,
    times: seq<TimeEvent>,
    free: seq<nat>,
    firing: Option<TimeEvent>,
    fired: seq<nat>)

  const INITIAL := State([], [], [], None, [])

  /** Where an ordered multiset inserts: after every entry that is not later. */
  function UpperBound(times: seq<TimeEvent>, next: int): (k: nat)
    ensures k <= |times|
    ensures forall i :: 0 <= i < k ==> times[i].next <= next
    ensures k < |times| ==> times[k].next > next
  {
    if times == [] || times[0].next > next then 0 else 1 + UpperBound(times[1..], next)
  }

  function Insert(times: seq<TimeEvent>, te: TimeEvent): seq<TimeEvent> {
    var k := UpperBound(times, te.next);
    times[..k] + [te] + times[k..]
  }

  /** The position of the first time event of a timer, or the length if there is none. */
  function FindRef(times: seq<TimeEvent>, id: nat): (k: nat)
    ensures k <= |times|
    ensures forall i :: 0 <= i < k ==> times[i].ref != id
    ensures k < |times| ==> times[k].ref == id
  {
    if times == [] || times[0].ref == id then 0 else 1 + FindRef(times[1..], id)
  }

  function NewId(s: State): nat {
    if s.free == [] then |s.events| else s.free[|s.free| - 1]
  }

  function Add(s: State, when: int, period: int): State {
    var id := NewId(s);
    var e := Event(when, period, true);
    s.(events := if id < |s.events| then s.events[id := e] else s.events + [e],
       fired := if id < |s.fired| then s.fired[id := 0] else s.fired + [0],
       free := if s.free == [] then [] else s.free[..|s.free| - 1],
       times := Insert(s.times, TimeEvent(when, id)))
  }

  function Remove(s: State, id: nat): State {
    if id >= |s.events| then s
    else
      var k := FindRef(s.times, id);
      var t := s.(events := s.events[id := s.events[id].(valid := false)]);
      if k == |s.times| then t
      else t.(times := s.times[..k] + s.times[k + 1..], free := s.free + [id])
  }

  predicate Due(s: State, now: int) {
    s.firing.None? && s.times != [] && now >= s.times[0].next
  }

  /** The worker takes the earliest time event and starts its handler. */
  function Begin(s: State, now: int): State
    requires Due(s, now)
  {
    var te := s.times[0];
    s.(times := s.times[1..],
       firing := Some(te),
       fired := if te.ref < |s.fired| then s.fired[te.ref := s.fired[te.ref] + 1] else s.fired)
  }

  /** The handler returned: a valid periodic timer is scheduled again, any other id is free. */
  function End(s: State): State
    requires s.firing.Some? && s.firing.value.ref < |s.events|
  {
    var te := s.firing.value;
    var e := s.events[te.ref];
    var t := s.(firing := None);
    if e.valid && e.period > 0 then
      t.(times := Insert(s.times, te.(next := te.next + e.period)))
    else
      t.(events := s.events[te.ref := e.(valid := false)], free := s.free + [te.ref])
  }

  // ---- The class ----

  class TimerSystem {
    var events: seq<Event>
    var timeEvents: seq<TimeEvent>
    var freeIds: seq<nat>
    var inFlight: Option<TimeEvent>
    ghost var fired: seq<nat>

    ghost function View(): State
      reads this
    {
      State(events, timeEvents, freeIds, inFlight, fired)
    }

    ghost predicate Valid()
      reads this
    {
      Inv(View())
    }

    constructor ()
      ensures Valid() && View() == INITIAL
    {
      events, timeEvents, freeIds, inFlight, fired := [], [], [], None, [];
    }

    method InsertTime(te: TimeEvent)
      modifies this`timeEvents
      ensures timeEvents == Insert(old(timeEvents), te)
    {
      var i := 0;
      while i < |timeEvents| && timeEvents[i].next <= te.next
        invariant 0 <= i <= |timeEvents|
        invariant UpperBound(timeEvents, te.next) == i + UpperBound(timeEvents[i..], te.next)
      {
        assert timeEvents[i..][1..] == timeEvents[i + 1..];
        i := i + 1;
      }
      timeEvents := timeEvents[..i] + [te] + timeEvents[i..];
    }

    method AddTimer(when: int, period: int) returns (id: nat)
      requires Valid()
      modifies this
      ensures Valid()
      ensures id == NewId(old(View())) && View() == Add(old(View()), when, period)
      ensures forall i :: 0 <= i < |old(timeEvents)| ==> old(timeEvents)[i].ref != id
      ensures inFlight.Some? ==> inFlight.value.ref != id
    {
      ghost var before := View();
      NewIdUnused(before);
      if freeIds == [] {
        id := |events|;
        events := events + [Event(when, period, true)];
        fired := fired + [0];
      } else {
        id := freeIds[|freeIds| - 1];
        freeIds := freeIds[..|freeIds| - 1];
        events := events[id := Event(when, period, true)];
        fired := fired[id := 0];
      }
      InsertTime(TimeEvent(when, id));
      assert View() == Add(before, when, period);
      AddKeeps(before, when, period);
    }

    method RemoveTimer(id: nat) returns (ok: bool)
      requires Valid()
      modifies this
      ensures Valid()
      ensures ok == (id < |old(events)|) && View() == Remove(old(View()), id)
      ensures forall i :: 0 <= i < |timeEvents| ==> timeEvents[i].ref != id
    {
      ghost var before := View();
      RemoveUnschedules(before, id);
      RemoveKeeps(before, id);
      if id >= |events| {
        return false;
      }
      events := events[id := events[id].(valid := false)];
      var i := FindTime(id);
      if i < |timeEvents| {
        freeIds := freeIds + [timeEvents[i].ref];
        timeEvents := timeEvents[..i] + timeEvents[i + 1..];
      }
      assert View() == Remove(before, id);
      return true;
    }

    /** The first scheduled entry with the id. */
    method FindTime(id: nat) returns (i: nat)
      ensures i == FindRef(timeEvents, id)
    {
      i := 0;
      while i < |timeEvents| && timeEvents[i].ref != id
        invariant 0 <= i <= |timeEvents|
        invariant FindRef(timeEvents, id) == i + FindRef(timeEvents[i..], id)
      {
        assert timeEvents[i..][1..] == timeEvents[i + 1..];
        i := i + 1;
      }
    }

    /** One pass of the worker up to the handler call; returns the timer that fires, if one is due. */
    method BeginFiring(now: int) returns (started: Option<TimeEvent>)
      requires Valid() && inFlight.None?
      modifies this
      ensures Valid()
      ensures started.Some? <==> Due(old(View()), now)
      ensures View() == if started.Some? then Begin(old(View()), now) else old(View())
      ensures started.Some? ==> started.value in old(timeEvents) && started.value.next <= now
      ensures started.Some? ==> forall te :: te in old(timeEvents) ==> started.value.next <= te.next
    {
      if timeEvents == [] || now < timeEvents[0].next {
        return None;
      }
      BeginKeeps(View(), now);
      var te := timeEvents[0];
      timeEvents := timeEvents[1..];
      fired := fired[te.ref := fired[te.ref] + 1];
      inFlight := Some(te);
      return Some(te);
    }

    /** The rest of the pass, after the handler returned and the lock was taken again. */
    method EndFiring()
      requires Valid() && inFlight.Some?
      modifies this
      ensures Valid()
      ensures View() == End(old(View()))
    {
      ghost var before := View();
      FiringKnown(before);
      var te := inFlight.value;
      inFlight := None;
      if events[te.ref].valid && events[te.ref].period > 0 {
        InsertTime(te.(next := te.next + events[te.ref].period));
      } else {
        events := events[te.ref := events[te.ref].(valid := false)];
        freeIds := freeIds + [te.ref];
      }
      assert View() == End(before);
      EndKeeps(before);
    }
  }

  // ---- The invariant ----

  function Refs(times: seq<TimeEvent>): (r: seq<nat>)
    ensures |r| == |times|
  {
    seq(|times|, i requires 0 <= i < |times| => times[i].ref)
  }

  /** How often an id occurs among scheduled entries, the free stack and the firing in flight. */
  function Occurrences(s: State, id: nat): nat {
    multiset(Refs(s.times))[id] + multiset(s.free)[id] + (if s.firing.Some? && s.firing.value.ref == id then 1 else 0)
  }

  ghost predicate Sorted(times: seq<TimeEvent>) {
    forall i, j :: 0 <= i < j < |times| ==> times[i].next <= times[j].next
  }

  ghost predicate UniqueIds(s: State) {
    forall id: nat :: Occurrences(s, id) == if id < |s.events| then 1 else 0
  }

  /** A scheduled timer is valid and its deadline is its first time plus one period per firing. */
  ghost predicate OnSchedule(s: State, te: TimeEvent) {
    && te.ref < |s.events| == |s.fired|
    && s.events[te.ref].valid
    && te.next == s.events[te.ref].start + s.fired[te.ref] * s.events[te.ref].period
  }

  ghost predicate FiringOnSchedule(s: State) {
    s.firing.Some? ==>
      && s.firing.value.ref < |s.events| == |s.fired|
      && s.fired[s.firing.value.ref] > 0
      && s.firing.value.next ==
           s.events[s.firing.value.ref].start + (s.fired[s.firing.value.ref] - 1) * s.events[s.firing.value.ref].period
  }

  ghost predicate Inv(s: State) {
    && |s.fired| == |s.events|
    && Sorted(s.times)
    && UniqueIds(s)
    && (forall i :: 0 <= i < |s.times| ==> OnSchedule(s, s.times[i]))
    && FiringOnSchedule(s)
  }

  lemma InsertSorted(times: seq<TimeEvent>, te: TimeEvent)
    requires Sorted(times)
    ensures Sorted(Insert(times, te))
  {
  }

  lemma InsertRefs(times: seq<TimeEvent>, te: TimeEvent)
    ensures multiset(Refs(Insert(times, te))) == multiset(Refs(times)) + multiset{te.ref}
  {
    var k := UpperBound(times, te.next);
    assert Refs(Insert(times, te)) == Refs(times)[..k] + [te.ref] + Refs(times)[k..];
    assert Refs(times) == Refs(times)[..k] + Refs(times)[k..];
  }

  lemma DeleteRefs(times: seq<TimeEvent>, k: nat)
    requires k < |times|
    ensures multiset(Refs(times)) == multiset(Refs(times[..k] + times[k + 1..])) + multiset{times[k].ref}
  {
    assert Refs(times[..k] + times[k + 1..]) == Refs(times)[..k] + Refs(times)[k + 1..];
    assert Refs(times) == Refs(times)[..k] + [times[k].ref] + Refs(times)[k + 1..];
  }

  lemma SameRefTwice(times: seq<TimeEvent>, i: nat, j: nat)
    requires i < |times| && j < |times| && i != j
    ensures times[i].ref == times[j].ref ==> multiset(Refs(times))[times[i].ref] >= 2
  {
    DeleteRefs(times, i);
    var rest := times[..i] + times[i + 1..];
    var k := if j < i then j else j - 1;
    assert Refs(rest)[k] == times[j].ref;
    assert Refs(rest)[k] in multiset(Refs(rest));
  }

  lemma ScheduledOccurs(s: State, i: nat)
    requires UniqueIds(s) && i < |s.times|
    ensures multiset(Refs(s.times))[s.times[i].ref] == 1 && s.times[i].ref !in s.free
    ensures s.firing.Some? ==> s.firing.value.ref != s.times[i].ref
    ensures forall j :: 0 <= j < |s.times| && j != i ==> s.times[j].ref != s.times[i].ref
  {
    var id := s.times[i].ref;
    assert Refs(s.times)[i] == id;
    assert id in multiset(Refs(s.times));
    assert Occurrences(s, id) == 1;
    forall j | 0 <= j < |s.times| && j != i ensures s.times[j].ref != id {
      SameRefTwice(s.times, i, j);
    }
  }

  lemma NewIdUnused(s: State)
    requires Inv(s)
    ensures NewId(s) <= |s.events| && (s.free != [] ==> NewId(s) < |s.events|)
    ensures forall i :: 0 <= i < |s.times| ==> s.times[i].ref != NewId(s)
    ensures s.firing.Some? ==> s.firing.value.ref != NewId(s)
  {
    var id := NewId(s);
    assert s.free != [] ==> id in multiset(s.free);
    assert Occurrences(s, id) == if id < |s.events| then 1 else 0;
    forall i | 0 <= i < |s.times| ensures s.times[i].ref != id {
      ScheduledOccurs(s, i);
    }
  }

  lemma FiringKnown(s: State)
    requires Inv(s)
    ensures s.firing.Some? ==> s.firing.value.ref < |s.events|
  {
  }

  lemma RemoveUnschedules(s: State, id: nat)
    requires Inv(s)
    ensures forall i :: 0 <= i < |Remove(s, id).times| ==> Remove(s, id).times[i].ref != id
  {
    var k := FindRef(s.times, id);
    if k < |s.times| {
      ScheduledOccurs(s, k);
    }
  }

  lemma AddUnique(s: State, when: int, period: int)
    requires Inv(s)
    ensures UniqueIds(Add(s, when, period))
  {
    var t := Add(s, when, period);
    InsertRefs(s.times, TimeEvent(when, NewId(s)));
    assert s.free != [] ==> s.free == t.free + [NewId(s)];
    forall id: nat ensures Occurrences(t, id) == if id < |t.events| then 1 else 0 {
      assert Occurrences(s, id) == if id < |s.events| then 1 else 0;
      NewIdUnused(s);
    }
  }

  lemma AddKeeps(s: State, when: int, period: int)
    requires Inv(s)
    ensures Inv(Add(s, when, period))
  {
    AddUnique(s, when, period);
    NewIdUnused(s);
    InsertSorted(s.times, TimeEvent(when, NewId(s)));
    var t := Add(s, when, period);
    var k := UpperBound(s.times, when);
    forall i | 0 <= i < |t.times| ensures OnSchedule(t, t.times[i]) {
      assert i < k ==> t.times[i] == s.times[i];
      assert i > k ==> t.times[i] == s.times[i - 1];
    }
  }

  /** Removing moves an id from the schedule to the free list. */
  lemma RemoveMoves(s: State, id: nat, i: nat)
    ensures Occurrences(Remove(s, id), i) == Occurrences(s, i)
  {
    var k := FindRef(s.times, id);
    if k < |s.times| {
      Freed(s.times, s.free, k, i);
    }
  }

  lemma Freed(times: seq<TimeEvent>, free: seq<nat>, k: nat, i: nat)
    requires k < |times|
    ensures multiset(Refs(times[..k] + times[k + 1..]))[i] + multiset(free + [times[k].ref])[i] ==
            multiset(Refs(times))[i] + multiset(free)[i]
  {
    DeleteRefs(times, k);
  }

  lemma RemoveUnique(s: State, id: nat)
    requires UniqueIds(s)
    ensures UniqueIds(Remove(s, id))
  {
    var t := Remove(s, id);
    forall i: nat ensures Occurrences(t, i) == if i < |t.events| then 1 else 0 {
      RemoveMoves(s, id, i);
      assert Occurrences(s, i) == if i < |s.events| then 1 else 0;
    }
  }

  lemma RemoveKeeps(s: State, id: nat)
    requires Inv(s)
    ensures Inv(Remove(s, id))
  {
    RemoveUnique(s, id);
    RemoveUnschedules(s, id);
    var t := Remove(s, id);
    var k := FindRef(s.times, id);
    forall i | 0 <= i < |t.times| ensures OnSchedule(t, t.times[i]) {
      var j := if k == |s.times| || id >= |s.events| || i < k then i else i + 1;
      assert t.times[i] == s.times[j] && OnSchedule(s, s.times[j]);
    }
  }

  lemma BeginUnique(s: State, now: int)
    requires UniqueIds(s) && Due(s, now)
    ensures UniqueIds(Begin(s, now))
  {
    var t := Begin(s, now);
    assert multiset(Refs(s.times)) == multiset(Refs(t.times)) + multiset{s.times[0].ref} by {
      DeleteRefs(s.times, 0);
      assert s.times[..0] + s.times[1..] == s.times[1..];
    }
    forall i: nat ensures Occurrences(t, i) == if i < |t.events| then 1 else 0 {
      assert Occurrences(s, i) == if i < |s.events| then 1 else 0;
    }
  }

  lemma BeginKeeps(s: State, now: int)
    requires Inv(s) && Due(s, now)
    ensures Inv(Begin(s, now))
  {
    BeginUnique(s, now);
    var t := Begin(s, now);
    ScheduledOccurs(s, 0);
    assert OnSchedule(s, s.times[0]);
    forall i | 0 <= i < |t.times| ensures OnSchedule(t, t.times[i]) {
      assert OnSchedule(s, s.times[i + 1]);
    }
  }

  /** Ending a firing moves its id to the schedule or to the free list. */
  lemma EndMoves(s: State, i: nat)
    requires s.firing.Some? && s.firing.value.ref < |s.events|
    ensures Occurrences(End(s), i) == Occurrences(s, i)
  {
    var te := s.firing.value;
    InsertRefs(s.times, te.(next := te.next + s.events[te.ref].period));
  }

  lemma EndUnique(s: State)
    requires UniqueIds(s) && s.firing.Some? && s.firing.value.ref < |s.events|
    ensures UniqueIds(End(s))
  {
    forall i: nat ensures Occurrences(End(s), i) == if i < |s.events| then 1 else 0 {
      EndMoves(s, i);
      assert Occurrences(s, i) == if i < |s.events| then 1 else 0;
    }
  }

  lemma OneMore(n: int, period: int)
    ensures (n - 1) * period + period == n * period
  {
  }

  /** The next deadline of a periodic timer is one period later. */
  lemma FiringReschedules(s: State)
    requires Inv(s) && s.firing.Some?
    ensures var te := s.firing.value;
            te.ref < |s.events| && (s.events[te.ref].valid && s.events[te.ref].period > 0 ==>
              OnSchedule(s, te.(next := te.next + s.events[te.ref].period)))
  {
    var te := s.firing.value;
    FiringKnown(s);
    OneMore(s.fired[te.ref], s.events[te.ref].period);
  }

  lemma EndSchedule(s: State, i: nat)
    requires Inv(s) && s.firing.Some? && i < |End(s).times|
    ensures OnSchedule(End(s), End(s).times[i])
  {
    var t := End(s);
    var te := s.firing.value;
    var e := s.events[te.ref];
    if e.valid && e.period > 0 {
      var k := UpperBound(s.times, te.next + e.period);
      if i != k {
        assert t.times[i] == s.times[if i < k then i else i - 1];
        assert OnSchedule(s, s.times[if i < k then i else i - 1]);
      } else {
        FiringReschedules(s);
      }
    } else {
      ScheduledOccurs(s, i);
      assert OnSchedule(s, s.times[i]);
    }
  }

  lemma EndKeeps(s: State)
    requires Inv(s) && s.firing.Some?
    ensures Inv(End(s))
  {
    EndUnique(s);
    forall i: nat | i < |End(s).times| ensures OnSchedule(End(s), End(s).times[i]) {
      EndSchedule(s, i);
    }
    var te := s.firing.value;
    InsertSorted(s.times, te.(next := te.next + s.events[te.ref].period));
  }

  // ---- Runs ----

  datatype Step = DoAdd(when: int, period: int) | DoRemove(id: nat) | DoBegin(now: int) | DoEnd

  predicate Enabled(s: State, step: Step) {
    match step
    case DoAdd(_, _) => true
    case DoRemove(_) => true
    case DoBegin(now) => Due(s, now)
    case DoEnd => s.firing.Some? && s.firing.value.ref < |s.events|
  }

  function Apply(s: State, step: Step): State
    requires Enabled(s, step)
  {
    match step
    case DoAdd(when, period) => Add(s, when, period)
    case DoRemove(id) => Remove(s, id)
    case DoBegin(now) => Begin(s, now)
    case DoEnd => End(s)
  }

  ghost predicate Run(s: State, steps: seq<Step>, t: State)
    decreases |steps|
  {
    if steps == [] then s == t
    else Enabled(s, steps[0]) && Run(Apply(s, steps[0]), steps[1..], t)
  }

  lemma StepKeeps(s: State, step: Step)
    requires Inv(s) && Enabled(s, step)
    ensures Inv(Apply(s, step))
  {
    match step
    case DoAdd(when, period) => AddKeeps(s, when, period);
    case DoRemove(id) => RemoveKeeps(s, id);
    case DoBegin(now) => BeginKeeps(s, now);
    case DoEnd => EndKeeps(s);
  }

  lemma {:induction false} RunKeeps(s: State, steps: seq<Step>, t: State)
    requires Inv(s) && Run(s, steps, t)
    ensures Inv(t)
    decreases |steps|
  {
    if steps != [] {
      StepKeeps(s, steps[0]);
      RunKeeps(Apply(s, steps[0]), steps[1..], t);
    }
  }

  /**
   In every reachable state each id below the size of the vector occurs exactly
   once among scheduled entries, free ids and the firing in flight, and adding is
   possible and returns an id that is neither scheduled nor running.
   */
  lemma IdsAccounted(steps: seq<Step>, t: State, id: nat)
    requires Run(INITIAL, steps, t)
    ensures Occurrences(t, id) == if id < |t.events| then 1 else 0
    ensures NewId(t) <= |t.events|
    ensures forall i :: 0 <= i < |t.times| ==> t.times[i].ref != NewId(t)
    ensures t.firing.Some? ==> t.firing.value.ref != NewId(t)
  {
    RunKeeps(INITIAL, steps, t);
    NewIdUnused(t);
  }

  /** The id is not scheduled, and if its handler is still running it will not be rescheduled. */
  ghost predicate Silenced(s: State, id: nat) {
    && id < |s.events|
    && (forall i :: 0 <= i < |s.times| ==> s.times[i].ref != id)
    && (s.firing.Some? && s.firing.value.ref == id ==> !s.events[id].valid)
  }

  /** Some add in the run returns the id. */
  ghost predicate Readds(s: State, steps: seq<Step>, id: nat)
    decreases |steps|
  {
    steps != [] && Enabled(s, steps[0]) &&
    ((steps[0].DoAdd? && NewId(s) == id) || Readds(Apply(s, steps[0]), steps[1..], id))
  }

  lemma SilencedStep(s: State, step: Step, id: nat)
    requires Inv(s) && Enabled(s, step) && Silenced(s, id)
    requires !(step.DoAdd? && NewId(s) == id)
    ensures Silenced(Apply(s, step), id)
  {
    match step
    case DoAdd(when, period) => SilencedInsert(s.times, TimeEvent(when, NewId(s)), id);
    case DoRemove(j) =>
    case DoBegin(now) =>
    case DoEnd =>
      var te := s.firing.value;
      SilencedInsert(s.times, te.(next := te.next + s.events[te.ref].period), id);
  }

  lemma SilencedInsert(times: seq<TimeEvent>, te: TimeEvent, id: nat)
    requires forall i :: 0 <= i < |times| ==> times[i].ref != id
    ensures te.ref != id ==> forall i :: 0 <= i < |Insert(times, te)| ==> Insert(times, te)[i].ref != id
  {
  }

  lemma {:induction false} SilencedRun(s: State, steps: seq<Step>, t: State, id: nat)
    requires Inv(s) && Silenced(s, id) && Run(s, steps, t) && !Readds(s, steps, id)
    ensures Silenced(t, id) && Inv(t)
    decreases |steps|
  {
    if steps != [] {
      SilencedStep(s, steps[0], id);
      StepKeeps(s, steps[0]);
      SilencedRun(Apply(s, steps[0]), steps[1..], t, id);
    }
  }

  /** After a removal no new firing of the id begins until an add returns it again. */
  lemma RemovedNeverFires(s: State, id: nat, steps: seq<Step>, t: State, now: int)
    requires Inv(s) && id < |s.events|
    requires Run(Remove(s, id), steps, t) && !Readds(Remove(s, id), steps, id)
    requires Due(t, now)
    ensures Begin(t, now).firing.value.ref != id
  {
    RemoveKeeps(s, id);
    RemoveUnschedules(s, id);
    SilencedRun(Remove(s, id), steps, t, id);
  }

  /** How many firings of the id begin in the run. */
  ghost function Firings(s: State, steps: seq<Step>, id: nat): nat
    decreases |steps|
  {
    if steps == [] || !Enabled(s, steps[0]) then 0
    else (if steps[0].DoBegin? && s.times[0].ref == id then 1 else 0) + Firings(Apply(s, steps[0]), steps[1..], id)
  }

  lemma HistoryStep(s: State, step: Step, id: nat)
    requires Inv(s) && Enabled(s, step) && id < |s.events|
    requires !(step.DoAdd? && NewId(s) == id)
    ensures var t := Apply(s, step);
            && id < |t.events| == |t.fired|
            && t.events[id].start == s.events[id].start && t.events[id].period == s.events[id].period
            && t.fired[id] == s.fired[id] + (if step.DoBegin? && s.times[0].ref == id then 1 else 0)
  {
    if step.DoBegin? {
      assert OnSchedule(s, s.times[0]);
    }
  }

  lemma {:induction false} HistoryRun(s: State, steps: seq<Step>, t: State, id: nat)
    requires Inv(s) && id < |s.events| && Run(s, steps, t) && !Readds(s, steps, id)
    ensures id < |t.events| == |t.fired|
    ensures t.events[id].start == s.events[id].start && t.events[id].period == s.events[id].period
    ensures t.fired[id] == s.fired[id] + Firings(s, steps, id)
    decreases |steps|
  {
    if steps != [] {
      HistoryStep(s, steps[0], id);
      StepKeeps(s, steps[0]);
      HistoryRun(Apply(s, steps[0]), steps[1..], t, id);
    }
  }

  /**
   However adds, removals and other firings interleave, the firing of a timer that
   follows k earlier ones is for exactly its first time plus k periods, is due, and
   is the earliest of all scheduled deadlines.
   */
  lemma FiringDeadline(s: State, when: int, period: int, steps: seq<Step>, t: State, now: int)
    requires Inv(s)
    requires Run(Add(s, when, period), steps, t) && !Readds(Add(s, when, period), steps, NewId(s))
    requires Due(t, now) && t.times[0].ref == NewId(s)
    ensures t.times[0].next == when + Firings(Add(s, when, period), steps, NewId(s)) * period
    ensures t.times[0].next <= now
    ensures forall i :: 0 <= i < |t.times| ==> t.times[0].next <= t.times[i].next
  {
    var s' := Add(s, when, period);
    AddKeeps(s, when, period);
    NewIdUnused(s);
    HistoryRun(s', steps, t, NewId(s));
    RunKeeps(s', steps, t);
    assert OnSchedule(t, t.times[0]);
  }
}
