/**
 A chain run inside VCL to produce a string: every VM is reserved temporarily, and the
 reservation of the program before is freed once its response was transferred.
 */
module ToString {
  import opened GuestMemory
  import opened Options
  import opened Chain
  import opened ChainBody
  import P = Post

  /** The loop's variables at its head. */
  datatype State = State(books: Books, last: Option<Slot>, response: Response)

  /** What the chain ends with: the reservations, the response, and whether every program was called and let it pass. */
  datatype End = End(books: Books, answer: Response, complete: bool)

  /** A failed assertion takes the process down. */
  datatype Turned = Going(state: State) | Ended(end: End) | Died

  /** A response that carries no more than a status. */
  function Minimal(status: int): Response {
    Response(status, 0, [], [])
  }

  /** Every program has a VM of its own, so what it is given never overlaps what it is copied from. */
  function Received(index: nat, env: Env, previous: Response): P.Received {
    P.Transfer(P.Other(previous.image), env.memory(index), env.area(index), previous.layout, previous.contentLength,
               env.place(index))
  }

  /** The call, once the program was given its POST. */
  function Called(item: Item, response: Response, b: Books, slot: Option<Slot>, last: Option<Slot>): Turned
    requires item.Program?
  {
    if response.status >= item.breakStatus then
      Ended(End(FreeSlot(FreeSlot(b, slot), last), Minimal(response.status), false))
    else
      Going(State(b, slot, response))
  }

  /** A fetch has no tenant to reserve a VM of, and none whose name could be logged. */
  function Turn(chain: seq<Item>, index: nat, env: Env, s: State): Turned
    requires index < |chain|
  {
    var item := chain[index];
    if item.Fetch? then Died
    else
      var (reserved, slot) := ReserveTemporarily(s.books, index, env.granted(index));
      if slot.None? then Ended(End(FreeSlot(reserved, s.last), Minimal(500), false))
      else if index == 0 then Called(item, env.program(0, None), reserved, slot, s.last)
      else
        match Received(index, env, s.response)
        case Crashed => Died
        case Refused => Ended(End(FreeSlot(FreeSlot(reserved, slot), s.last), Minimal(500), false))
        case Taken(_, _, content) =>
          Called(item, env.program(index, Some(content)), FreeSlot(reserved, s.last), slot, s.last)
  }

  function Run(chain: seq<Item>, env: Env, index: nat, s: State): Option<End>
    requires index <= |chain|
    decreases |chain| - index, 0
  {
    if index == |chain| then Some(End(FreeSlot(s.books, s.last), s.response, true))
    else Onward(chain, env, index + 1, Turn(chain, index, env, s))
  }

  /** The rest of the run after a turn. */
  function Onward(chain: seq<Item>, env: Env, index: nat, t: Turned): Option<End>
    requires index <= |chain|
    decreases |chain| - index, 1
  {
    match t
    case Going(next) => Run(chain, env, index, next)
    case Ended(end) => Some(end)
    case Died => None
  }

  const BEGIN: State := State(Books({}, true, Private(None, Nothing)), None, EMPTY)

  /** The transfer of the previous response into the VM of a program; none where it failed. */
  method Give(index: nat, env: Env, previous: Response) returns (died: bool, post: Option<Bytes>)
    requires env.place(index) != 0
    ensures died <==> Received(index, env, previous).Crashed?
    ensures post.Some? <==> Received(index, env, previous).Taken?
    ensures post.Some? ==> post.value == Received(index, env, previous).content
  {
    var from := new P.Guest(previous.image, P.PostArea(0, 0));
    var vm := new P.Guest(env.memory(index), env.area(index));
    var transfer := new P.BackendPost(previous.contentLength);
    var outcome := P.PostToAnother(from, vm, transfer, previous.layout, env.place(index), env.copy);
    died, post := outcome == P.Aborted, None;
    if outcome == P.Done {
      post := Some(if previous.layout == [] then [] else Read(vm.memory, transfer.address, transfer.length));
    }
  }

  method RunChain(chain: seq<Item>, env: Env) returns (end: Option<End>)
    requires forall i :: env.place(i) != 0
    ensures end == Run(chain, env, 0, BEGIN)
  {
    var books := BEGIN.books;
    var last: Option<Slot> := None;
    var response := EMPTY;
    var index := 0;
    while index < |chain|
      invariant 0 <= index <= |chain|
      invariant Run(chain, env, index, State(books, last, response)) == Run(chain, env, 0, BEGIN)
    {
      if chain[index].Fetch? {
        return None;
      }
      if !env.granted(index) {
        return Some(End(FreeSlot(books, last), Minimal(500), false));
      }
      var slot := Some(Own(index));
      books := books.(held := books.held + {Own(index)});
      var post: Option<Bytes> := None;
      if index > 0 {
        var died;
        died, post := Give(index, env, response);
        if died {
          return None;
        }
        if post.None? {
          return Some(End(FreeSlot(FreeSlot(books, slot), last), Minimal(500), false));
        }
        books := FreeSlot(books, last);
      }
      response := env.program(index, post);
      if response.status >= chain[index].breakStatus {
        return Some(End(FreeSlot(FreeSlot(books, slot), last), Minimal(response.status), false));
      }
      last := slot;
      index := index + 1;
    }
    return Some(End(FreeSlot(books, last), response, true));
  }

  // ---- Reservations ----

  ghost predicate GivenBack(b: Books) {
    b.legal && b.held == {}
  }

  /** The process survives, and every reservation was given back exactly once. */
  ghost predicate EndsWell(end: Option<End>) {
    end.Some? && GivenBack(end.value.books)
  }

  /** The books at the head of the loop, and what the programs passed so far allow. */
  ghost predicate HeadOf(chain: seq<Item>, s: State, index: nat)
    requires index <= |chain|
  {
    && s.books.legal && s.books.held == AsSet(s.last)
    && (index == 0 <==> s.last.None?)
    && (s.last.Some? ==> s.last.value.Own? && s.last.value.index < index)
    && (forall i :: 0 <= i < index ==> chain[i].Program? && chain[i].breakStatus > 200)
    && Gathered(s.response)
  }

  /** Item `i` is a later program that can be reached and can end the chain by its status. */
  predicate CanBreak(chain: seq<Item>, i: nat) {
    && 0 < i < |chain| && chain[i].Program? && chain[i].breakStatus < 600
    && forall j :: 0 <= j < i ==> chain[j].Program? && chain[j].breakStatus > 200
  }

  /** A turn keeps the books, unless a later program ends the chain by its status; it dies exactly at a fetch. */
  lemma TurnKeeps(chain: seq<Item>, index: nat, env: Env, s: State)
    requires index < |chain| && Valid(env) && HeadOf(chain, s, index)
    ensures var t := Turn(chain, index, env, s);
            && (t.Going? ==> HeadOf(chain, t.state, index + 1))
            && (t.Ended? ==> GivenBack(t.end.books) || CanBreak(chain, index))
            && (t.Died? <==> chain[index].Fetch?)
  {
  }

  /** From item `index` on there are only programs, and none of the chain can end it after the first. */
  ghost predicate Unbroken(chain: seq<Item>, index: nat) {
    (forall i :: index <= i < |chain| ==> chain[i].Program?) && (forall i :: !CanBreak(chain, i))
  }

  lemma TurnEndsWell(chain: seq<Item>, index: nat, env: Env, s: State)
    requires index < |chain| && Valid(env) && HeadOf(chain, s, index) && Unbroken(chain, index)
    ensures var t := Turn(chain, index, env, s);
            && (t.Going? ==> HeadOf(chain, t.state, index + 1) && Unbroken(chain, index + 1))
            && (t.Ended? ==> GivenBack(t.end.books))
            && !t.Died?
  {
    TurnKeeps(chain, index, env, s);
  }

  lemma {:induction false} RunKeeps(chain: seq<Item>, env: Env, index: nat, s: State)
    requires index <= |chain| && Valid(env) && HeadOf(chain, s, index) && Unbroken(chain, index)
    ensures EndsWell(Run(chain, env, index, s))
    decreases |chain| - index
  {
    if index < |chain| {
      TurnEndsWell(chain, index, env, s);
      var t := Turn(chain, index, env, s);
      if t.Going? {
        RunKeeps(chain, env, index + 1, t.state);
      }
    }
  }

  /** The process dies if and only if the chain begins with a fetch, whatever the surroundings answer. */
  lemma {:induction false} DiesExact(chain: seq<Item>, env: Env, index: nat, s: State)
    requires index <= |chain| && Valid(env) && HeadOf(chain, s, index) && WellFormed(chain)
    ensures Run(chain, env, index, s).None? <==> index == 0 && chain[0].Fetch?
    decreases |chain| - index
  {
    if index < |chain| {
      TurnKeeps(chain, index, env, s);
      var t := Turn(chain, index, env, s);
      if t.Going? {
        DiesExact(chain, env, index + 1, t.state);
      }
    }
  }

  /** Every program succeeds, except that program `at` answers with the highest status. */
  ghost function FailsAt(at: nat): (env: Env)
    ensures Valid(env)
  {
    Smooth(true, 0, true).(program := (i, post) => if i == at then Minimal(599) else SHORT)
  }

  lemma {:induction false} Reaches(chain: seq<Item>, at: nat, index: nat) returns (s: State)
    requires index <= at && CanBreak(chain, at)
    ensures HeadOf(chain, s, index) && s.response.layout == []
    ensures Run(chain, FailsAt(at), 0, BEGIN) == Run(chain, FailsAt(at), index, s)
  {
    s := BEGIN;
    if index > 0 {
      var before := Reaches(chain, at, index - 1);
      TurnKeeps(chain, index - 1, FailsAt(at), before);
      s := Turn(chain, index - 1, FailsAt(at), before).state;
    }
  }

  /** When a later program ends the chain, the reservation before it is freed a second time. */
  lemma BreakFreesTwice(chain: seq<Item>, at: nat)
    requires CanBreak(chain, at)
    ensures Run(chain, FailsAt(at), 0, BEGIN).Some? && !Run(chain, FailsAt(at), 0, BEGIN).value.books.legal
  {
    var s := Reaches(chain, at, at);
  }

  /**
   A chain ends well, whatever the surroundings answer, if and only if it does not begin
   with a fetch and no program after the first can end it by its status.
   */
  lemma EndsWellExact(chain: seq<Item>)
    requires WellFormed(chain)
    ensures (forall env: Env | Valid(env) :: EndsWell(Run(chain, env, 0, BEGIN)))
            <==> chain[0].Program? && (forall i :: !CanBreak(chain, i))
  {
    if i :| CanBreak(chain, i) {
      BreakFreesTwice(chain, i);
      assert Valid(FailsAt(i));
    } else if chain[0].Fetch? {
      DiesExact(chain, FailsAt(0), 0, BEGIN);
      assert Valid(FailsAt(0));
    } else {
      forall env: Env | Valid(env)
        ensures EndsWell(Run(chain, env, 0, BEGIN))
      {
        RunKeeps(chain, env, 0, BEGIN);
      }
    }
  }

  // ---- What VCL is given ----

  /** The same composition as for a backend, from a request without a body. */
  ghost function Bodiless(env: Env): Env {
    env.(isPost := false)
  }

  /** Between two VMs the transfer gives the program the previous response. */
  lemma ReceivedIsBody(index: nat, env: Env, previous: Response)
    ensures var r := Received(index, env, previous);
            r.Taken? ==> r.content == BodyOf(previous)
  {
    P.TakenIsResponse(P.Other(previous.image), env.memory(index), env.area(index), previous.layout,
                      previous.contentLength, env.place(index), 0);
  }

  lemma TurnDenotesHere(chain: seq<Item>, index: nat, env: Env, s: State)
    requires index < |chain| && (index > 0 ==> s.response == Denote(chain, Bodiless(env), index - 1))
    ensures var t := Turn(chain, index, env, s);
            && (t.Going? ==>
                  t.state.response == Denote(chain, Bodiless(env), index) && !Stops(chain, Bodiless(env), index))
            && (t.Ended? ==>
                  || t.end.answer == Minimal(500)
                  || (Stops(chain, Bodiless(env), index) &&
                      t.end.answer == Minimal(Denote(chain, Bodiless(env), index).status)))
  {
    if index > 0 {
      ReceivedIsBody(index, env, s.response);
    }
  }

  /** The answer is the composition of all items, or the bare status of the first that ends the chain. */
  ghost predicate Denotes(chain: seq<Item>, env: Env, index: nat, k: nat, answer: Response) {
    && index <= k < |chain| && PassesTo(chain, env, index, k)
    && (if Stops(chain, env, k) then answer == Minimal(Denote(chain, env, k).status)
        else k == |chain| - 1 && answer == Denote(chain, env, k))
  }

  /**
   VCL is given the composition of all programs, or the bare status of the first one
   that ends the chain, or 500 where a VM could not be reserved or a POST not transferred.
   */
  lemma {:induction false} StringDenotes(chain: seq<Item>, env: Env, index: nat, s: State) returns (k: nat)
    requires index < |chain| && (index > 0 ==> s.response == Denote(chain, Bodiless(env), index - 1))
    ensures var end := Run(chain, env, index, s);
            end.Some? && end.value.answer != Minimal(500) ==> Denotes(chain, Bodiless(env), index, k, end.value.answer)
    decreases |chain| - index
  {
    TurnDenotesHere(chain, index, env, s);
    var t := Turn(chain, index, env, s);
    k := index;
    if t.Going? && index + 1 < |chain| {
      k := StringDenotes(chain, env, index + 1, t.state);
    } else if t.Going? {
      var end := End(FreeSlot(t.state.books, t.state.last), t.state.response, true);
      assert Run(chain, env, index + 1, t.state) == Some(end);
    }
  }

  // ---- What VCL gets for it ----

  /** A VCL string: the content, the empty string, a message of the module, or what VCL supplied for errors. */
  datatype Value = Content(bytes: Bytes) | Empty | Message | OnError

  function ValueOf(end: End, threshold: int, space: bool): Value {
    if end.answer.status >= threshold then OnError
    else if !end.complete then Message
    else if space then Content(BodyOf(end.answer))
    else Empty
  }

  /** The string that VCL gets, unless the process dies. `space` tells whether the content fits into the workspace. */
  function StringFor(chain: seq<Item>, env: Env, threshold: int, space: bool): Option<Value> {
    ValueFor(if env.startSpace then Run(chain, env, 0, BEGIN) else OUT_OF_SPACE, threshold, space)
  }

  const OUT_OF_SPACE: Option<End> := Some(End(BEGIN.books, Minimal(500), false))

  function ValueFor(end: Option<End>, threshold: int, space: bool): Option<Value> {
    if end.None? then None else Some(ValueOf(end.value, threshold, space))
  }

  lemma ValueCases(end: Option<End>, threshold: int, space: bool, last: Response)
    requires end.Some? && end.value.complete ==> end.value.answer == last && last.status < threshold
    ensures var value := ValueFor(end, threshold, space);
            var complete := end.Some? && end.value.complete;
            && (complete && space <==> value == Some(Content(BodyOf(last))))
            && (complete && !space <==> value == Some(Empty))
            && (value.None? <==> end.None?)
            && (!complete && value.Some? ==> value.value.Message? || value.value.OnError?)
  {
  }

  /** The copy of the content into the workspace. */
  method CopyContent(response: Response, space: bool) returns (content: Option<Bytes>)
    ensures content == if space then Some(BodyOf(response)) else None
  {
    if !space {
      return None;
    }
    var bytes: Bytes := [];
    for i := 0 to |response.layout|
      invariant bytes == P.Content(response.image, response.layout, i)
    {
      bytes := bytes + Read(response.image, response.layout[i].addr, response.layout[i].size);
    }
    content := Some(bytes);
  }

  /** Program `i` gets a VM, takes the previous response and lets the chain pass. */
  predicate Passes(chain: seq<Item>, env: Env, i: nat)
    requires i < |chain|
  {
    && chain[i].Program? && env.granted(i) && !Stops(chain, env, i)
    && (i > 0 ==>
          var prev := Denote(chain, env, i - 1);
          P.Fits(env.memory(i), prev.layout, prev.contentLength,
                 P.Allocated(env.area(i), prev.contentLength, env.place(i)).data))
  }

  predicate PassesFrom(chain: seq<Item>, env: Env, i: nat)
    requires i <= |chain|
    decreases |chain| - i
  {
    i < |chain| ==> Passes(chain, env, i) && PassesFrom(chain, env, i + 1)
  }

  /** A gathered response is taken if and only if it fits. */
  lemma ReceivesIf(index: nat, env: Env, previous: Response)
    requires Gathered(previous)
    ensures !Received(index, env, previous).Crashed?
    ensures Received(index, env, previous).Taken? <==>
              P.Fits(env.memory(index), previous.layout, previous.contentLength,
                     P.Allocated(env.area(index), previous.contentLength, env.place(index)).data)
  {
    P.GatheredNeverCrashes(P.Other(previous.image), env.memory(index), env.area(index), previous.layout,
                           previous.contentLength, env.place(index));
  }

  /** A turn goes on if and only if it gets a VM and a POST for it, and the answer does not stop the chain. */
  lemma GoesOn(chain: seq<Item>, index: nat, env: Env, s: State)
    requires index < |chain|
    ensures var t := Turn(chain, index, env, s);
            && (t.Going? || (t.Ended? && !t.end.complete) || t.Died?)
            && (t.Going? ==>
                  chain[index].Program? && env.granted(index) &&
                  (index > 0 ==> Received(index, env, s.response).Taken?))
            && (chain[index].Program? && env.granted(index) &&
                (index > 0 ==> Received(index, env, s.response).Taken?) ==>
                  var post := if index == 0 then None else Some(Received(index, env, s.response).content);
                  t.Going? <==> env.program(index, post).status < chain[index].breakStatus)
  {
  }

  lemma TurnPasses(chain: seq<Item>, index: nat, env: Env, s: State)
    requires index < |chain| && Valid(env)
    requires index > 0 ==> s.response == Denote(chain, Bodiless(env), index - 1)
    ensures var t := Turn(chain, index, env, s);
            && (t.Going? <==> Passes(chain, Bodiless(env), index))
            && (t.Ended? ==> !t.end.complete)
  {
    GoesOn(chain, index, env, s);
    if index > 0 {
      Answers(chain, Bodiless(env), index - 1);
      ReceivesIf(index, env, s.response);
      ReceivedIsBody(index, env, s.response);
    }
  }

  /** The chain is completed if and only if every program passes, and then with the composition of all. */
  lemma {:induction false} CompletesExact(chain: seq<Item>, env: Env, index: nat, s: State)
    requires index <= |chain| && Valid(env)
    requires index > 0 ==> s.response == Denote(chain, Bodiless(env), index - 1)
    ensures var end := Run(chain, env, index, s);
            && (end.Some? && end.value.complete <==> PassesFrom(chain, Bodiless(env), index))
            && (end.Some? && end.value.complete && chain != [] ==>
                  end.value.answer == Denote(chain, Bodiless(env), |chain| - 1))
    decreases |chain| - index
  {
    if index < |chain| {
      TurnPasses(chain, index, env, s);
      TurnDenotesHere(chain, index, env, s);
      var t := Turn(chain, index, env, s);
      if t.Going? {
        CompletesExact(chain, env, index + 1, t.state);
      }
    }
  }

  /**
   VCL gets the content if and only if every program passes and there is workspace, and then
   it is the composition of all programs; without workspace for the content it gets the
   empty string. The last program ends the chain at VCL's own threshold.
   */
  lemma StringExact(chain: seq<Item>, env: Env, space: bool)
    requires WellFormed(chain) && Valid(env)
    ensures var value := StringFor(chain, env, chain[|chain| - 1].breakStatus, space);
            var passes := env.startSpace && PassesFrom(chain, Bodiless(env), 0);
            && (passes && space <==> value == Some(Content(BodyOf(Denote(chain, Bodiless(env), |chain| - 1)))))
            && (passes && !space <==> value == Some(Empty))
            && (value.None? <==> env.startSpace && chain[0].Fetch?)
            && (!passes && value.Some? ==> value.value.Message? || value.value.OnError?)
  {
    CompletesExact(chain, env, 0, BEGIN);
    DiesExact(chain, env, 0, BEGIN);
    if PassesFrom(chain, Bodiless(env), 0) {
      LastPasses(chain, Bodiless(env), 0);
    }
    ValueCases(if env.startSpace then Run(chain, env, 0, BEGIN) else OUT_OF_SPACE, chain[|chain| - 1].breakStatus,
               space, Denote(chain, Bodiless(env), |chain| - 1));
  }

  lemma {:induction false} LastPasses(chain: seq<Item>, env: Env, i: nat)
    requires i < |chain| && PassesFrom(chain, env, i)
    ensures Passes(chain, env, |chain| - 1)
    decreases |chain| - i
  {
    if i + 1 < |chain| {
      LastPasses(chain, env, i + 1);
    }
  }
}
