/**
 The regex handle table of a VM: a vector of entries with a fixed capacity, in
 which hash zero marks a free slot and `nonOwned` marks an entry loaned from the
 main VM. Guests compile and free patterns through it; a VM reset replaces the
 whole table by a loan of the main VM's table.
 */
module RegexCache {

  /** `item` is the compiled pattern, 0 being the null pointer. */
  datatype Entry = Entry(item: nat, hash: nat, nonOwned: bool)

  datatype Table = Table(entries: seq<Entry>, capacity: nat)

  const NO_ITEM: nat := 0

  predicate Live(e: Entry) {
    e.hash != 0
  }

  /** The first entry with the given hash, or -1. Hash 0 finds a free slot, as in the source. */
  function Find(entries: seq<Entry>, hash: nat): (idx: int)
    ensures -1 <= idx < |entries|
    ensures idx >= 0 ==> entries[idx].hash == hash
    ensures forall j :: 0 <= j < (if idx >= 0 then idx else |entries|) ==> entries[j].hash != hash
  {
    FindFrom(entries, hash, 0)
  }

  function FindFrom(entries: seq<Entry>, hash: nat, k: nat): (idx: int)
    requires k <= |entries|
    ensures idx == -1 || k <= idx < |entries|
    ensures idx >= 0 ==> entries[idx].hash == hash
    ensures forall j :: k <= j < (if idx >= 0 then idx else |entries|) ==> entries[j].hash != hash
    decreases |entries| - k
  {
    if k == |entries| then -1
    else if entries[k].hash == hash then k
    else FindFrom(entries, hash, k + 1)
  }

  /** Where `manage` puts a new item: the end while there is room, else the first free slot; -1 when full. */
  function Place(t: Table): (idx: int)
    ensures -1 <= idx <= |t.entries|
  {
    if |t.entries| < t.capacity then |t.entries| else Find(t.entries, 0)
  }

  function Manage(t: Table, item: nat, hash: nat): Table
    requires Place(t) >= 0
  {
    var e := Entry(item, hash, false);
    var idx := Place(t);
    t.(entries := if idx == |t.entries| then t.entries + [e] else t.entries[idx := e])
  }

  /** `Entry::free` leaves `nonOwned` as it was. */
  function Freed(e: Entry): Entry {
    e.(item := NO_ITEM, hash := 0)
  }

  function Loan(entries: seq<Entry>): (r: seq<Entry>)
    ensures |r| == |entries|
    ensures forall i :: 0 <= i < |r| ==> r[i] == entries[i].(nonOwned := true)
  {
    seq(|entries|, i requires 0 <= i < |entries| => entries[i].(nonOwned := true))
  }

  /** Clearing keeps the vector's storage, so the capacity never shrinks. */
  function ResetAndLoan(t: Table, main: Table): Table {
    Table(Loan(main.entries), if t.capacity < main.capacity then main.capacity else t.capacity)
  }

  /** The items `foreach_owned` hands to its callback, in table order. */
  function OwnedItems(entries: seq<Entry>): seq<nat> {
    if entries == [] then []
    else OwnedItems(entries[..|entries| - 1]) +
         (if Live(entries[|entries| - 1]) && !entries[|entries| - 1].nonOwned
          then [entries[|entries| - 1].item] else [])
  }

  /** The table after a callback that releases each owned item and nulls its pointer. */
  function ReleaseOwned(entries: seq<Entry>): (r: seq<Entry>)
    ensures |r| == |entries|
  {
    seq(|entries|, i requires 0 <= i < |entries| =>
      if Live(entries[i]) && !entries[i].nonOwned then entries[i].(item := NO_ITEM) else entries[i])
  }

  class Cache {
    var cache: seq<Entry>
    var capacity: nat

    ghost function View(): Table
      reads this
    {
      Table(cache, capacity)
    }

    constructor (max: nat)
      ensures View() == Table([], max)
    {
      cache, capacity := [], max;
    }

    method FindHash(hash: nat) returns (idx: int)
      ensures idx == Find(cache, hash)
    {
      var i := 0;
      while i < |cache|
        invariant 0 <= i <= |cache|
        invariant Find(cache, hash) == FindFrom(cache, hash, i)
      {
        if cache[i].hash == hash {
          return i;
        }
        i := i + 1;
      }
      return -1;
    }

    /** Returns -1 where the source throws because every slot is live. */
    method ManageItem(item: nat, hash: nat) returns (idx: int)
      modifies this
      ensures idx == Place(old(View()))
      ensures View() == if idx >= 0 then Manage(old(View()), item, hash) else old(View())
    {
      if |cache| < capacity {
        cache := cache + [Entry(item, hash, false)];
        return |cache| - 1;
      }
      idx := FindHash(0);
      if idx >= 0 {
        cache := cache[idx := Entry(item, hash, false)];
      }
    }

    /** Returns false where the source throws because the handle is out of range. */
    method FreeHandle(idx: nat) returns (ok: bool)
      modifies this
      ensures ok == (idx < |old(cache)|)
      ensures View() == Step(old(View()), Free(idx))
    {
      ok := idx < |cache|;
      if ok {
        cache := cache[idx := Freed(cache[idx])];
      }
    }

    method ResetFrom(other: Cache)
      modifies this
      ensures View() == ResetAndLoan(old(View()), old(other.View()))
    {
      var source := other.cache;
      var max := other.capacity;
      cache := [];
      capacity := if capacity < max then max else capacity;
      for i := 0 to |source|
        invariant |cache| == i
        invariant capacity == ResetAndLoan(old(View()), old(other.View())).capacity
        invariant forall j :: 0 <= j < i ==> cache[j] == source[j].(nonOwned := true)
      {
        cache := cache + [source[i].(nonOwned := true)];
      }
      assert cache == Loan(source);
    }

    /** `foreach_owned` with the tail-reset callback, which frees the item and nulls the entry's pointer. */
    method ReleaseAllOwned() returns (freed: seq<nat>)
      modifies this
      ensures freed == OwnedItems(old(cache))
      ensures View() == old(View()).(entries := ReleaseOwned(old(cache)))
    {
      freed := [];
      ghost var before := cache;
      for i := 0 to |cache|
        invariant |cache| == |before| && capacity == old(capacity)
        invariant freed == OwnedItems(before[..i])
        invariant forall j :: 0 <= j < i ==> cache[j] == ReleaseOwned(before)[j]
        invariant forall j :: i <= j < |before| ==> cache[j] == before[j]
      {
        assert before[..i + 1][..i] == before[..i];
        if cache[i].hash != 0 && !cache[i].nonOwned {
          freed := freed + [cache[i].item];
          cache := cache[i := cache[i].(item := NO_ITEM)];
        }
      }
      assert before[..|before|] == before;
      assert cache == ReleaseOwned(before);
    }

    /**
     The compile system call: an existing handle for the hash, else a fresh item
     put under a new handle. -1 where the source throws (bad pattern or full table).
     */
    method SyscallCompile(hash: nat, compiled: nat) returns (handle: int)
      modifies this
      ensures handle == HandleOf(old(View()), hash, compiled)
      ensures View() == Step(old(View()), Compile(hash, compiled))
    {
      handle := FindHash(hash);
      if handle < 0 && compiled != NO_ITEM {
        handle := ManageItem(compiled, hash);
      }
    }
  }

  // ---- Runs of guest operations between two resets ----

  datatype Op = Compile(hash: nat, item: nat) | Free(idx: nat)

  function HandleOf(t: Table, hash: nat, item: nat): int {
    var idx := Find(t.entries, hash);
    if idx >= 0 then idx else if item != NO_ITEM then Place(t) else -1
  }

  function Step(t: Table, op: Op): Table {
    match op
    case Compile(hash, item) =>
      if Find(t.entries, hash) < 0 && item != NO_ITEM && Place(t) >= 0 then Manage(t, item, hash) else t
    case Free(idx) =>
      if idx < |t.entries| then t.(entries := t.entries[idx := Freed(t.entries[idx])]) else t
  }

  function Run(t: Table, ops: seq<Op>): Table {
    if ops == [] then t else Step(Run(t, ops[..|ops| - 1]), ops[|ops| - 1])
  }

  /** Pattern hashes are non-zero and the compiler never returns a pointer the main VM owns. */
  ghost predicate Admissible(ops: seq<Op>, loaned: set<nat>) {
    forall i :: 0 <= i < |ops| && ops[i].Compile? ==> ops[i].hash != 0 && ops[i].item !in loaned
  }

  ghost predicate DistinctLive(entries: seq<Entry>) {
    forall i, j :: 0 <= i < j < |entries| && Live(entries[i]) && Live(entries[j]) ==> entries[i].hash != entries[j].hash
  }

  ghost predicate Ownership(entries: seq<Entry>, loaned: set<nat>) {
    forall i :: 0 <= i < |entries| && Live(entries[i]) ==> (entries[i].nonOwned <==> entries[i].item in loaned)
  }

  ghost function ItemsOf(entries: seq<Entry>): set<nat> {
    set i | 0 <= i < |entries| && Live(entries[i]) :: entries[i].item
  }

  ghost predicate Inv(t: Table, loaned: set<nat>) {
    && |t.entries| <= t.capacity
    && DistinctLive(t.entries)
    && Ownership(t.entries, loaned)
  }

  lemma LoanEstablishes(t: Table, main: Table)
    requires |main.entries| <= main.capacity && DistinctLive(main.entries)
    ensures Inv(ResetAndLoan(t, main), ItemsOf(main.entries))
  {
    var r := ResetAndLoan(t, main).entries;
    forall i | 0 <= i < |r| && Live(r[i])
      ensures r[i].item in ItemsOf(main.entries)
    {
      assert Live(main.entries[i]);
    }
  }

  lemma StepKeeps(t: Table, op: Op, loaned: set<nat>)
    requires Inv(t, loaned) && Admissible([op], loaned)
    ensures Inv(Step(t, op), loaned)
  {
    assert op == [op][0];
  }

  /**
   Every run of compiles and frees after a reset keeps live hashes pairwise
   distinct, and an entry is owned exactly when its item is not the main VM's.
   */
  lemma {:induction false} RunKeeps(t: Table, ops: seq<Op>, loaned: set<nat>)
    requires Inv(t, loaned) && Admissible(ops, loaned)
    ensures Inv(Run(t, ops), loaned)
  {
    if ops != [] {
      var before := ops[..|ops| - 1];
      RunKeeps(t, before, loaned);
      StepKeeps(Run(t, before), ops[|ops| - 1], loaned);
    }
  }

  lemma {:induction false} OwnedItemsAre(entries: seq<Entry>, item: nat)
    ensures item in OwnedItems(entries) <==>
            exists i :: 0 <= i < |entries| && Live(entries[i]) && !entries[i].nonOwned && entries[i].item == item
  {
    if entries != [] {
      var n := |entries| - 1;
      OwnedItemsAre(entries[..n], item);
      if item in OwnedItems(entries[..n]) {
        var i :| 0 <= i < n && Live(entries[..n][i]) && !entries[..n][i].nonOwned && entries[..n][i].item == item;
        assert entries[i] == entries[..n][i];
      }
      forall i | 0 <= i < n && Live(entries[i]) && !entries[i].nonOwned && entries[i].item == item
        ensures item in OwnedItems(entries[..n])
      {
        assert entries[..n][i] == entries[i];
      }
    }
  }

  /**
   Whatever a guest compiled and freed since the reset, even in slots that held a
   loaned entry, the entries visited for freeing hold no item of the main VM.
   */
  lemma LoanedNeverFreed(t: Table, main: Table, ops: seq<Op>, item: nat)
    requires |main.entries| <= main.capacity && DistinctLive(main.entries)
    requires Admissible(ops, ItemsOf(main.entries))
    ensures item in OwnedItems(Run(ResetAndLoan(t, main), ops).entries) ==> item !in ItemsOf(main.entries)
  {
    LoanEstablishes(t, main);
    RunKeeps(ResetAndLoan(t, main), ops, ItemsOf(main.entries));
    OwnedItemsAre(Run(ResetAndLoan(t, main), ops).entries, item);
  }

  /** A live handle keeps its entry through any run that does not free it. */
  lemma {:induction false} LiveHandleStable(t: Table, ops: seq<Op>, h: nat)
    requires h < |t.entries| && Live(t.entries[h])
    requires Free(h) !in ops
    ensures h < |Run(t, ops).entries| && Run(t, ops).entries[h] == t.entries[h]
  {
    if ops != [] {
      assert ops[|ops| - 1] in ops;
      LiveHandleStable(t, ops[..|ops| - 1], h);
    }
  }

  /**
   Compiling a pattern twice, with any other operations in between that do not
   free its handle, yields the same handle and leaves the table alone.
   */
  lemma CompileIsStable(t: Table, loaned: set<nat>, hash: nat, item: nat, ops: seq<Op>, item2: nat)
    requires Inv(t, loaned) && hash != 0 && item !in loaned && Admissible(ops, loaned)
    requires HandleOf(t, hash, item) >= 0
    requires Free(HandleOf(t, hash, item)) !in ops
    ensures var later := Run(Step(t, Compile(hash, item)), ops);
            && HandleOf(later, hash, item2) == HandleOf(t, hash, item)
            && Step(later, Compile(hash, item2)) == later
  {
    var h := HandleOf(t, hash, item);
    var first := Step(t, Compile(hash, item));
    var later := Run(first, ops);
    StepKeeps(t, Compile(hash, item), loaned);
    assert Live(first.entries[h]) && first.entries[h].hash == hash;
    LiveHandleStable(first, ops, h);
    RunKeeps(first, ops, loaned);
    var found := Find(later.entries, hash);
    assert found == h by {
      assert later.entries[h].hash == hash;
    }
  }
}
