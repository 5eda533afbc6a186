/**
 Reference counting of program instances. Every non-null `shared_ptr` to a
 program is an entry of `targets`, named by the variable that holds it; `counts`
 is the control block. Assigning a variable counts the new target up before it
 counts the old one down.
 */
module SharedPtr {
  import opened Options

  /** A tenant's program pointer, a local variable of some thread, or a slot's `prog_ref`. */
  datatype Holder = Pointer(loc: nat) | Local(v: nat) | SlotRef(slot: nat)

  datatype Refs = Refs(targets: map<Holder, nat>, counts: map<nat, nat>)

  /** The target of a holder, if it is not null. */
  function Target(r: Refs, h: Holder): Option<nat> {
    if h in r.targets then Some(r.targets[h]) else None
  }

  function CountUp(counts: map<nat, nat>, t: Option<nat>): map<nat, nat> {
    if t.Some? && t.value in counts then counts[t.value := counts[t.value] + 1] else counts
  }

  function CountDown(counts: map<nat, nat>, t: Option<nat>): map<nat, nat> {
    if t.Some? && t.value in counts && counts[t.value] > 0
    then counts[t.value := counts[t.value] - 1] else counts
  }

  function Assign(r: Refs, h: Holder, t: Option<nat>): Refs {
    Refs(if t.Some? then r.targets[h := t.value] else r.targets - {h},
         CountDown(CountUp(r.counts, t), Target(r, h)))
  }

  /** `dst = std::move(src)`: the moved target keeps its count, the old target of `dst` is counted down. */
  function Move(r: Refs, dst: Holder, src: Holder): Refs {
    Refs(if src in r.targets then r.targets[dst := r.targets[src]] - {src} else r.targets - {dst},
         CountDown(r.counts, Target(r, dst)))
  }

  lemma TargetAfterAssign(r: Refs, h: Holder, t: Option<nat>, k: Holder)
    ensures Target(Assign(r, h, t), k) == if k == h then t else Target(r, k)
  {
  }

  lemma TargetAfterMove(r: Refs, dst: Holder, src: Holder, k: Holder)
    requires dst != src
    ensures Target(Move(r, dst, src), k) == if k == src then None else if k == dst then Target(r, src) else Target(r, k)
  {
  }

  ghost function HoldersOf(targets: map<Holder, nat>, p: nat): set<Holder> {
    set h | h in targets && targets[h] == p
  }

  /** Every count is the number of variables that hold the program, and nothing points to a freed one. */
  ghost predicate Exact(r: Refs) {
    && (forall p :: p in r.counts ==> r.counts[p] == |HoldersOf(r.targets, p)|)
    && (forall h :: h in r.targets ==> r.targets[h] in r.counts)
  }

  ghost predicate SameExcept(before: map<Holder, nat>, after: map<Holder, nat>, h: Holder) {
    forall k :: k != h ==> (k in before <==> k in after) && (k in before ==> before[k] == after[k])
  }

  lemma CountWithout(targets: map<Holder, nat>, h: Holder, p: nat)
    ensures |HoldersOf(targets, p)| ==
            |HoldersOf(targets, p) - {h}| + (if h in targets && targets[h] == p then 1 else 0)
  {
    if h in HoldersOf(targets, p) {
      assert HoldersOf(targets, p) == HoldersOf(targets, p) - {h} + {h};
    } else {
      assert HoldersOf(targets, p) == HoldersOf(targets, p) - {h};
    }
  }

  lemma Recount(before: map<Holder, nat>, after: map<Holder, nat>, h: Holder, p: nat)
    requires SameExcept(before, after, h)
    ensures |HoldersOf(after, p)| ==
            |HoldersOf(before, p)| + (if h in after && after[h] == p then 1 else 0)
                                   - (if h in before && before[h] == p then 1 else 0)
  {
    CountWithout(before, h, p);
    CountWithout(after, h, p);
    assert HoldersOf(before, p) - {h} == HoldersOf(after, p) - {h};
  }

  lemma AssignExact(r: Refs, h: Holder, t: Option<nat>)
    requires Exact(r)
    requires t.Some? ==> t.value in r.counts
    ensures Exact(Assign(r, h, t))
    ensures Assign(r, h, t).counts.Keys == r.counts.Keys
  {
    var r' := Assign(r, h, t);
    assert SameExcept(r.targets, r'.targets, h);
    forall p | p in r'.counts
      ensures r'.counts[p] == |HoldersOf(r'.targets, p)|
    {
      Recount(r.targets, r'.targets, h, p);
      if h in r.targets && r.targets[h] == p {
        assert h in HoldersOf(r.targets, p);
      }
    }
  }

  lemma MoveExact(r: Refs, dst: Holder, src: Holder)
    requires Exact(r) && dst != src
    ensures Exact(Move(r, dst, src))
    ensures Move(r, dst, src).counts.Keys == r.counts.Keys
  {
    var r' := Move(r, dst, src);
    var mid := if src in r.targets then r.targets[dst := r.targets[src]] else r.targets - {dst};
    assert SameExcept(r.targets, mid, dst) && SameExcept(mid, r'.targets, src);
    forall p | p in r'.counts
      ensures r'.counts[p] == |HoldersOf(r'.targets, p)|
    {
      Recount(r.targets, mid, dst, p);
      Recount(mid, r'.targets, src, p);
      if dst in r.targets && r.targets[dst] == p {
        assert dst in HoldersOf(r.targets, p);
      }
    }
  }

  /** A program whose count is zero is held by nobody. */
  lemma ZeroMeansUnheld(r: Refs, p: nat, h: Holder)
    requires Exact(r) && p in r.counts && r.counts[p] == 0
    ensures Target(r, h) != Some(p)
  {
    assert HoldersOf(r.targets, p) == {};
    assert h !in HoldersOf(r.targets, p);
  }

  /** Adding a new control block, and removing one that nobody holds, keep the counts exact. */
  lemma CreateExact(r: Refs, p: nat)
    requires Exact(r) && p !in r.counts
    ensures Exact(Refs(r.targets, r.counts[p := 0]))
  {
    assert HoldersOf(r.targets, p) == {};
  }

  lemma DestroyExact(r: Refs, p: nat)
    requires Exact(r) && p in r.counts && r.counts[p] == 0
    ensures Exact(Refs(r.targets, r.counts - {p}))
  {
    forall h | h in r.targets
      ensures r.targets[h] != p
    {
      ZeroMeansUnheld(r, p, h);
    }
  }
}
