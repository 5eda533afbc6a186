/**
 The chain as the program runs it: the queue that VCL fills item by item, and the
 backend request that works through a chain, updating its reservations in place.
 */
module ChainExecutor {
  import opened GuestMemory
  import opened Options
  import opened Pull
  import opened Chain
  import P = Post

  const MAX_ENTRIES: nat := 16
  const NO_BREAK: nat := 1000

  /** What VCL can do with the queue. */
  datatype QueueOp =
    | AddProgram(tenant: nat, breakStatus: nat, hasHttp: bool)
    | AddFetch(hasUrl: bool)
    | Take(hasHttp: bool)

  function QueueStep(items: seq<Item>, op: QueueOp): seq<Item> {
    match op
    case AddProgram(tenant, breakStatus, hasHttp) =>
      if |items| < MAX_ENTRIES && (items == [] ==> hasHttp) then items + [Program(tenant, breakStatus)] else items
    case AddFetch(hasUrl) =>
      if items == [] && hasUrl then [Fetch] else items
    case Take(hasHttp) =>
      if |items| < MAX_ENTRIES && (items == [] ==> hasHttp) then [] else items
  }

  function QueueRun(items: seq<Item>, ops: seq<QueueOp>): seq<Item>
    decreases |ops|
  {
    if ops == [] then items else QueueRun(QueueStep(items, ops[0]), ops[1..])
  }

  /** Nothing that VCL can do changes a full queue. */
  lemma {:induction false} FullForever(items: seq<Item>, ops: seq<QueueOp>)
    requires |items| == MAX_ENTRIES
    ensures QueueRun(items, ops) == items
    decreases |ops|
  {
    if ops != [] {
      FullForever(items, ops[1..]);
    }
  }

  /** A queue can be brought back to empty exactly as long as it is not full. */
  lemma RecoverExact(items: seq<Item>)
    requires |items| <= MAX_ENTRIES
    ensures (exists ops :: QueueRun(items, ops) == []) <==> |items| < MAX_ENTRIES
  {
    if |items| < MAX_ENTRIES {
      var ops := [Take(true)];
      assert ops[1..] == [];
      assert QueueRun(QueueStep(items, ops[0]), ops[1..]) == [];
      assert QueueRun(items, ops) == [];
    } else {
      forall ops
        ensures QueueRun(items, ops) != []
      {
        FullForever(items, ops);
      }
    }
  }

  /** The per-thread queue. */
  class ProgramQueue {
    var items: seq<Item>

    /** At most sixteen items, and a fetch only in front. */
    ghost predicate Valid()
      reads this
    {
      |items| <= MAX_ENTRIES && forall i :: 0 < i < |items| ==> items[i].Program?
    }

    constructor ()
      ensures Valid() && items == []
    {
      items := [];
    }

    /** Adds a program; the first one needs the headers of the request. */
    method InitChain(tenant: nat, breakStatus: nat, hasHttp: bool) returns (ok: bool)
      requires Valid()
      modifies this
      ensures Valid()
      ensures ok <==> |old(items)| < MAX_ENTRIES && (old(items) == [] ==> hasHttp)
      ensures items == QueueStep(old(items), AddProgram(tenant, breakStatus, hasHttp))
    {
      if |items| >= MAX_ENTRIES || (|items| == 0 && !hasHttp) {
        return false;
      }
      items := items + [Program(tenant, breakStatus)];
      ok := true;
    }

    method InitFetch(hasUrl: bool) returns (ok: bool)
      requires Valid()
      modifies this
      ensures Valid()
      ensures ok <==> old(items) == [] && hasUrl
      ensures items == QueueStep(old(items), AddFetch(hasUrl))
    {
      if |items| != 0 || !hasUrl {
        return false;
      }
      items := [Fetch];
      ok := true;
    }

    /** The final program, after which the chain is taken and the queue emptied. */
    method Backend(tenant: nat, hasHttp: bool) returns (chain: Option<seq<Item>>)
      requires Valid()
      modifies this
      ensures Valid()
      ensures chain.Some? <==> |old(items)| < MAX_ENTRIES && (old(items) == [] ==> hasHttp)
      ensures chain.Some? ==> WellFormed(chain.value) && chain.value == old(items) + [Program(tenant, NO_BREAK)]
      ensures items == QueueStep(old(items), Take(hasHttp))
    {
      var ok := InitChain(tenant, NO_BREAK, hasHttp);
      if !ok {
        return None;
      }
      chain := Some(items);
      items := [];
    }
  }

  /** One backend request. */
  class BackendRequest {
    var held: set<Slot>
    var legal: bool
    var private: Private

    ghost function View(): Books
      reads this
    {
      Books(held, legal, private)
    }

    constructor (owned: bool)
      ensures View() == Start(owned).books
    {
      held := if owned then {Earlier} else {};
      legal := true;
      private := if owned then Private(Some(Earlier), Free) else Private(None, Nothing);
    }

    method FreeReserved(slot: Option<Slot>)
      modifies this
      ensures View() == FreeSlot(old(View()), slot)
    {
      if slot.None? {
        return;
      }
      legal := legal && slot.value in held;
      held := held - {slot.value};
    }

    method Reserve(index: nat, temporary: bool, env: Env) returns (slot: Option<Slot>)
      modifies this
      ensures (View(), slot) ==
              if temporary then ReserveTemporarily(old(View()), index, env.granted(index))
              else ReserveForRequest(old(View()), index, env.granted(index), env.plus, env.finishSpace)
    {
      if !temporary && private.slot.Some? {
        return private.slot;
      }
      if !env.granted(index) {
        return None;
      }
      held := held + {Own(index)};
      if temporary {
        return Some(Own(index));
      }
      private := private.(slot := Some(Own(index)));
      if !env.plus && !env.finishSpace {
        FreeReserved(private.slot);
        return None;
      }
      private := private.(finish := Free);
      return private.slot;
    }

    method EarlySlotRelease()
      modifies this
      ensures View() == EarlyRelease(old(View()))
    {
      if private.finish.Free? {
        FreeReserved(private.slot);
      }
      private := Private(None, Nothing);
    }

    /** The reservation step of a turn: re-use, a temporary reservation, or one for the request. */
    method ReserveSlot(item: Item, index: nat, temporary: bool, env: Env, last: Option<Slot>, lastTenant: nat,
                       ghost s: Loop)
      returns (slot: Option<Slot>, stillHeld: Option<Slot>)
      requires item.Program? && s.books == View() && s.last == last && s.lastTenant == lastTenant
      modifies this
      ensures Reservation(View(), slot, stillHeld) == ReserveFor(item, temporary, index, env, s)
    {
      stillHeld := last;
      if last.Some? && lastTenant == item.tenant {
        slot, stillHeld := last, None;
        if !temporary {
          private := Private(slot, if env.plus then Free else FreeWithContext);
        }
      } else {
        slot := Reserve(index, temporary, env);
      }
    }

    /**
     The call of a program that was given its POST: the VM before is freed, and this one
     where the chain ends early.
     */
    method InvokeProgram(item: Item, index: nat, temporary: bool, response: Response, slot: Option<Slot>,
                         last: Option<Slot>, ghost area: P.PostArea) returns (broken: bool)
      requires item.Program? && slot.Some?
      modifies this
      ensures var step := Invoke(item, temporary, index, response, area, Reservation(old(View()), slot, last));
              broken == step.Break? && step.loop == Loop(View(), slot, item.tenant, response, InVm(slot.value), area)
    {
      if index > 0 {
        FreeReserved(last);
      }
      broken := response.status >= item.breakStatus;
      if broken && temporary {
        FreeReserved(slot);
      }
    }

    /** A program that is given nothing: whatever is reserved is freed. */
    method LetGo(index: nat, temporary: bool, slot: Option<Slot>, last: Option<Slot>)
      modifies this
      ensures View() == GiveUp(temporary, index, Reservation(old(View()), slot, last))
    {
      if index > 0 {
        FreeReserved(last);
      }
      if temporary {
        FreeReserved(slot);
      }
    }

    /** The turn of a program; `vm` is the VM that the latest response lies in, before and after. */
    method TakeProgramTurn(item: Item, index: nat, temporary: bool, env: Env, last: Option<Slot>, lastTenant: nat,
                           previous: Response, from: P.Guest, ghost s: Loop)
      returns (ghost step: Step, end: TurnEnd, slot: Option<Slot>, response: Response, vm: P.Guest)
      requires item.Program? && env.place(index) != 0
      requires s.books == View() && s.last == last && s.lastTenant == lastTenant && s.response == previous
      requires from.memory == previous.image && (last.Some? ==> from.PostAreaOf() == s.area)
      modifies this, from
      ensures step == ProgramTurn(item, temporary, index, env, s)
      ensures end.Crashed? <==> step.Crash?
      ensures end.GaveUp? <==> step.Fail?
      ensures end.Broken? <==> step.Break?
      ensures step.Fail? ==> View() == step.books
      ensures step.Next? || step.Break? ==>
                && step.loop == Loop(View(), slot, item.tenant, response, step.loop.home, vm.PostAreaOf())
                && slot.Some? && step.loop.home == InVm(slot.value) && vm.memory == response.image
      ensures vm == from || fresh(vm)
    {
      response, vm := previous, from;
      step := ProgramTurn(item, temporary, index, env, s);
      var stillHeld;
      slot, stillHeld := ReserveSlot(item, index, temporary, env, last, lastTenant, s);
      if slot.None? {
        FreeReserved(stillHeld);
        end := GaveUp;
        return;
      }
      var given;
      given, vm := GivePost(index, env, last.Some? && lastTenant == item.tenant, previous, from, s);
      if given.GivenCrash? {
        end := Crashed;
        return;
      }
      if given.GivenUp? {
        LetGo(index, temporary, slot, stillHeld);
        end := GaveUp;
        return;
      }
      response := env.program(index, given.post);
      vm.memory := response.image;
      var broken := InvokeProgram(item, index, temporary, response, slot, stillHeld, given.area);
      end := if broken then Broken else GoesOn;
    }

    /** The loop over the chain. */
    method RunChain(chain: seq<Item>, env: Env, ghost start: Loop)
      returns (end: TurnEnd, last: Option<Slot>, response: Response, home: Home)
      requires start == Loop(View(), None, 0, EMPTY, Heap, start.area) && WellFormed(chain)
      requires forall i :: env.place(i) != 0
      modifies this
      ensures var r := Run(chain, env, 0, start);
              && (end.Crashed? <==> r.Crash?) && (end.GaveUp? <==> r.Fail?) && !end.GoesOn?
              && (r.Fail? ==> View() == r.books)
              && (r.Break? ==>
                    View() == r.loop.books && last == r.loop.last && response == r.loop.response && home == r.loop.home)
    {
      last, response, home := None, EMPTY, Heap;
      var lastTenant := 0;
      var vm := new P.Guest([], P.PostArea(0, 0));
      ghost var s := start;
      var index := 0;
      while index < |chain|
        invariant 0 <= index <= |chain| && fresh(vm)
        invariant Run(chain, env, index, s) == Run(chain, env, 0, start)
        invariant s.books == View() && s.last == last && s.lastTenant == lastTenant && s.response == response
        invariant s.home == home && (index == 0 ==> last.None?)
        invariant vm.memory == response.image && (last.Some? ==> vm.PostAreaOf() == s.area)
      {
        var item := chain[index];
        if item.Fetch? {
          response, home := env.fetched, Heap;
          vm := new P.Guest(response.image, P.PostArea(0, 0));
          ghost var step := TakeTurn(chain, index, env, s);
          s := step.loop;
          if !env.fetchOk || response.status >= 400 {
            end := Broken;
            return;
          }
        } else {
          ghost var step;
          var slot;
          step, end, slot, response, vm :=
            TakeProgramTurn(item, index, index + 1 < |chain|, env, last, lastTenant, response, vm, s);
          assert step == TakeTurn(chain, index, env, s);
          if end.Crashed? || end.GaveUp? {
            return;
          }
          last, lastTenant, home, s := slot, item.tenant, InVm(slot.value), step.loop;
          if end.Broken? {
            return;
          }
        }
        index := index + 1;
      }
      end := Broken;
    }

    /** The whole request. */
    method GetHeaders(chain: seq<Item>, env: Env, ghost owned: bool, stale: Stale)
      returns (delivered: bool, aborted: bool, delivery: Delivery)
      requires View() == Start(owned).books && WellFormed(chain) && forall i :: env.place(i) != 0
      modifies this
      ensures var o := Answer(chain, env, owned, stale);
              && aborted == o.Aborted? && delivered == o.Delivered?
              && (!aborted ==> View() == o.books)
              && (delivered ==> delivery == o.delivery)
    {
      delivered, aborted, delivery := false, false, Delivery(0, 0, NoBytes);
      if !env.startSpace {
        return;
      }
      var end, last, response, home := RunChain(chain, env, Start(owned));
      if end.Crashed? {
        aborted := true;
        return;
      }
      if end.GaveUp? {
        return;
      }
      var body := InPlace(response, home);
      if last.Some? && response.contentLength < env.early {
        if response.contentLength == 0 {
          body := NoBytes;
        } else if env.bodySpace {
          var intact := home.Heap? || home.slot in held;
          var copy := CopyToWorkspace(BuffersOf(Books(held, legal, private), home, response, stale));
          if P.Sum(response.layout, |response.layout|) != response.contentLength {
            aborted := true;
            return;
          }
          body := Copied(copy, intact);
        }
        EarlySlotRelease();
      }
      delivered := env.connSpace;
      delivery := Delivery(if response.status < 200 then 500 else response.status, response.contentLength, body);
    }
  }

  /** How a turn of the loop ends. */
  datatype TurnEnd = GoesOn | Broken | GaveUp | Crashed

  /**
   What a program is given, copied into its VM: the same one as before, or another. The
   copy itself is that of module Post.
   */
  method GivePost(index: nat, env: Env, same: bool, previous: Response, from: P.Guest, ghost s: Loop)
    returns (given: Given, vm: P.Guest)
    requires s.response == previous && env.place(index) != 0
    requires from.memory == previous.image && (same ==> from.PostAreaOf() == s.area)
    modifies from
    ensures given == PostFor(index, env, s, same)
    ensures given.Given? ==> vm.PostAreaOf() == given.area
    ensures vm == from || fresh(vm)
  {
    vm := from;
    if !same || index == 0 {
      vm := new P.Guest(env.memory(index), env.area(index));
    }
    if index == 0 {
      if !env.isPost {
        given := Given(None, vm.PostAreaOf());
      } else if env.body.None? {
        given := GivenUp;
      } else {
        if env.body.value != [] {
          var address := vm.AllocatePostData(POST_BUFFER, env.place(0));
        }
        given := Given(env.body, vm.PostAreaOf());
      }
      return;
    }
    var post := new P.BackendPost(previous.contentLength);
    var outcome := P.PostToAnother(from, vm, post, previous.layout, env.place(index), env.copy);
    match outcome
    case Aborted => given := GivenCrash;
    case Failed => given := GivenUp;
    case Done =>
      var content := if previous.layout == [] then [] else Read(vm.memory, post.address, post.length);
      given := Given(Some(content), vm.PostAreaOf());
  }
}
