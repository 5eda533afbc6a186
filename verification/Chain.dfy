/**
 A chain of programs answering one backend request: each program's response becomes
 the next one's POST, each VM is reserved for its turn, and the last response is
 delivered. Reservations are accounted for by a ledger; what the pool, the workspace
 and the programs answer at each turn is a parameter.
 */
module Chain {
  import opened GuestMemory
  import opened Options
  import opened Pull
  import P = Post

  datatype Item = Fetch | Program(tenant: nat, breakStatus: nat)

  /** What a program answers: buffers in its own memory. Without buffers but with a length it is streamed. */
  datatype ResponseData = Response(status: int, contentLength: nat, image: Memory, layout: seq<P.Buffer>)

  type Response = r: ResponseData | P.AllInRange(r.image, r.layout) witness Response(0, 0, [], [])

  /** The bytes of a buffered response. */
  function BodyOf(r: Response): (body: Bytes)
    ensures |body| == P.Sum(r.layout, |r.layout|)
  {
    P.Content(r.image, r.layout, |r.layout|)
  }

  function StartOf(r: Response): nat {
    if r.layout == [] then 0 else r.layout[0].addr
  }

  predicate Streamed(r: Response) {
    r.contentLength > 0 && r.layout == []
  }

  /** A reserved VM, named by the index of the item it was reserved for, or an earlier one of the same task. */
  datatype Slot = Own(index: nat) | Earlier

  /**
   What ends a request's reservation: nothing, the free function, or its variant that does
   nothing without a context.
   */
  datatype Finish = Nothing | Free | FreeWithContext

  /** The slot that the request's private data holds on to. */
  datatype Private = Private(slot: Option<Slot>, finish: Finish)

  /** Who is reserved; `legal` as long as only reserved VMs were freed. */
  datatype Books = Books(held: set<Slot>, legal: bool, private: Private)

  // ---- Reserving and freeing ----

  function FreeSlot(b: Books, slot: Option<Slot>): Books {
    if slot.None? then b
    else b.(held := b.held - {slot.value}, legal := b.legal && slot.value in b.held)
  }

  /** A reservation for the middle of a chain. */
  function ReserveTemporarily(b: Books, index: nat, granted: bool): (Books, Option<Slot>) {
    if granted then (b.(held := b.held + {Own(index)}), Some(Own(index))) else (b, None)
  }

  /**
   The reservation for the last program lives as long as the request. One made earlier is
   used again. The open-source build needs workspace for the finishing record.
   */
  function ReserveForRequest(b: Books, index: nat, granted: bool, plus: bool, space: bool): (Books, Option<Slot>) {
    if b.private.slot.Some? then (b, b.private.slot)
    else if !granted then (b, None)
    else if !plus && !space then
      var named := b.(held := b.held + {Own(index)}, private := Private(Some(Own(index)), b.private.finish));
      (FreeSlot(named, Some(Own(index))), None)
    else (b.(held := b.held + {Own(index)}, private := Private(Some(Own(index)), Free)), Some(Own(index)))
  }

  function ReleaseAfterRequest(b: Books, slot: Slot, plus: bool): Books {
    b.(private := Private(Some(slot), if plus then Free else FreeWithContext))
  }

  /** Releases without a context. */
  function EarlyRelease(b: Books): Books {
    var freed := if b.private.finish.Free? then FreeSlot(b, b.private.slot) else b;
    freed.(private := Private(None, Nothing))
  }

  /** What Varnish does with the private data when the request ends. */
  function EndRequest(b: Books): Books {
    var freed := if b.private.finish.Nothing? then b else FreeSlot(b, b.private.slot);
    freed.(private := Private(None, Nothing))
  }

  // ---- One turn ----

  /**
   The build, the settings, and the answers of the surroundings: whether a reservation
   for an item is granted and what VM it is, where memory is mapped, what a copy within
   one memory delivers where source and destination overlap, what a program responds.
   */
  datatype Env = Env(
    plus: bool,
    early: nat,
    startSpace: bool,
    finishSpace: bool,
    bodySpace: bool,
    connSpace: bool,
    isPost: bool,
    body: Option<Bytes>,
    fetchOk: bool,
    fetched: Response,
    granted: nat -> bool,
    memory: nat -> Memory,
    area: nat -> P.PostArea,
    place: nat -> nat,
    copy: P.Copier,
    program: (nat, Option<Bytes>) -> Response)

  /** Where the buffers of the latest response lie: in the host's own memory, or in a VM. */
  datatype Home = Heap | InVm(slot: Slot)

  /** The loop's variables at its head, and the POST area of the last VM. */
  datatype Loop = Loop(books: Books, last: Option<Slot>, lastTenant: nat, response: Response, home: Home,
                       area: P.PostArea)

  datatype Step = Next(loop: Loop) | Break(loop: Loop) | Fail(books: Books) | Crash

  /** The books after a reservation, the slot, and the previous slot if it is still to be freed. */
  datatype Reservation = Reservation(books: Books, slot: Option<Slot>, last: Option<Slot>)

  /** The item runs in the VM of the item before. */
  predicate SameVm(s: Loop, item: Item) {
    item.Program? && s.last.Some? && s.lastTenant == item.tenant
  }

  function ReserveFor(item: Item, temporary: bool, index: nat, env: Env, s: Loop): Reservation
    requires item.Program?
  {
    if SameVm(s, item) then
      Reservation(if temporary then s.books else ReleaseAfterRequest(s.books, s.last.value, env.plus), s.last, None)
    else
      var (books, slot) :=
        if temporary then ReserveTemporarily(s.books, index, env.granted(index))
        else ReserveForRequest(s.books, index, env.granted(index), env.plus, env.finishSpace);
      Reservation(books, slot, s.last)
  }

  const POST_BUFFER: nat := 0x2000_0000

  /** What a program is given, or why it is given nothing: a transfer that fails, or one that crashes. */
  datatype Given = Given(post: Option<Bytes>, area: P.PostArea) | GivenUp | GivenCrash

  /** The first program is given the request's body, read into its VM. */
  function FirstPost(env: Env): Given {
    if !env.isPost then Given(None, env.area(0))
    else if env.body.None? then GivenUp
    else if env.body.value == [] then Given(env.body, env.area(0))
    else Given(env.body, P.Allocated(env.area(0), POST_BUFFER, env.place(0)))
  }

  /** A later one what arrives in its VM of the previous response. */
  function NextPost(index: nat, env: Env, s: Loop, same: bool): Given {
    var prev := s.response;
    var received :=
      if same then P.Transfer(P.Same(env.copy), prev.image, s.area, prev.layout, prev.contentLength, env.place(index))
      else P.Transfer(P.Other(prev.image), env.memory(index), env.area(index), prev.layout, prev.contentLength,
                      env.place(index));
    match received
    case Crashed => GivenCrash
    case Refused => GivenUp
    case Taken(_, area, content) => Given(Some(content), area)
  }

  function PostFor(index: nat, env: Env, s: Loop, same: bool): Given {
    if index == 0 then FirstPost(env) else NextPost(index, env, s, same)
  }

  /** The books when a program is given nothing. */
  function GiveUp(temporary: bool, index: nat, r: Reservation): Books {
    var freed := if index > 0 then FreeSlot(r.books, r.last) else r.books;
    if temporary then FreeSlot(freed, r.slot) else freed
  }

  /** The call of a program that was given its POST. */
  function Invoke(item: Item, temporary: bool, index: nat, response: Response, area: P.PostArea, r: Reservation): Step
    requires item.Program? && r.slot.Some?
  {
    var freed := if index > 0 then FreeSlot(r.books, r.last) else r.books;
    var home := InVm(r.slot.value);
    if response.status >= item.breakStatus then
      Break(Loop(if temporary then FreeSlot(freed, r.slot) else freed, r.slot, item.tenant, response, home, area))
    else
      Next(Loop(freed, r.slot, item.tenant, response, home, area))
  }

  function ProgramTurn(item: Item, temporary: bool, index: nat, env: Env, s: Loop): Step
    requires item.Program?
  {
    var r := ReserveFor(item, temporary, index, env, s);
    if r.slot.None? then Fail(FreeSlot(r.books, r.last))
    else
      match PostFor(index, env, s, SameVm(s, item))
      case GivenCrash => Crash
      case GivenUp => Fail(GiveUp(temporary, index, r))
      case Given(post, area) => Invoke(item, temporary, index, env.program(index, post), area, r)
  }

  function TakeTurn(chain: seq<Item>, index: nat, env: Env, s: Loop): Step
    requires index < |chain|
  {
    if chain[index].Fetch? then
      var after := s.(response := env.fetched, home := Heap);
      if !env.fetchOk || env.fetched.status >= 400 then Break(after) else Next(after)
    else
      ProgramTurn(chain[index], index + 1 < |chain|, index, env, s)
  }

  /** The rest of the loop from item `index` on. */
  function Run(chain: seq<Item>, env: Env, index: nat, s: Loop): (r: Step)
    requires index <= |chain|
    ensures !r.Next?
    decreases |chain| - index, 0
  {
    if index == |chain| then Break(s) else Onward(chain, env, index + 1, TakeTurn(chain, index, env, s))
  }

  /** The rest of the loop after a turn. */
  function Onward(chain: seq<Item>, env: Env, index: nat, step: Step): (r: Step)
    requires index <= |chain|
    ensures !r.Next?
    decreases |chain| - index, 1
  {
    if step.Next? then Run(chain, env, index, step.loop) else step
  }

  // ---- After the loop ----

  /** What the memory of a VM that was given back holds where buffer `i` of a response was. */
  type Stale = (Response, nat) -> Bytes

  predicate Held(b: Books, home: Home) {
    home.Heap? || home.slot in b.held
  }

  /** One buffer of a response as it is read with these books: anything, in a VM that is not held. */
  function BufferOf(b: Books, home: Home, r: Response, stale: Stale, i: nat): (bytes: Bytes)
    requires i < |r.layout|
    ensures |bytes| == r.layout[i].size
  {
    if !Held(b, home) && |stale(r, i)| == r.layout[i].size then stale(r, i)
    else Read(r.image, r.layout[i].addr, r.layout[i].size)
  }

  function BuffersOf(b: Books, home: Home, r: Response, stale: Stale): seq<Bytes> {
    seq(|r.layout|, i requires 0 <= i < |r.layout| => BufferOf(b, home, r, stale, i))
  }

  /** How the body is held for delivery: nothing to hold, one workspace buffer, or the buffers as they are. */
  datatype Body = NoBytes | Copied(bytes: Bytes, intact: bool) | InPlace(response: Response, home: Home)

  datatype Delivery = Delivery(status: int, contentLength: nat, body: Body)

  datatype Outcome = Delivered(books: Books, delivery: Delivery) | Failed(books: Books) | Aborted

  function Respond(env: Env, b: Books, r: Response, body: Body): Outcome {
    if env.connSpace then Delivered(b, Delivery(if r.status < 200 then 500 else r.status, r.contentLength, body))
    else Failed(b)
  }

  /**
   Short responses are copied to the workspace so that the VM can be released early; it is
   released also without a copy.
   */
  function Finalize(env: Env, s: Loop, stale: Stale): Outcome {
    var r := s.response;
    if s.last.None? || r.contentLength >= env.early then Respond(env, s.books, r, InPlace(r, s.home))
    else if r.contentLength == 0 then Respond(env, EarlyRelease(s.books), r, NoBytes)
    else if !env.bodySpace then Respond(env, EarlyRelease(s.books), r, InPlace(r, s.home))
    else if P.Sum(r.layout, |r.layout|) != r.contentLength then Aborted
    else Respond(env, EarlyRelease(s.books), r,
                 Copied(Concat(BuffersOf(s.books, s.home, r, stale)), Held(s.books, s.home)))
  }

  const EMPTY: Response := Response(0, 0, [], [])

  function Start(owned: bool): Loop {
    var books :=
      if owned then Books({Earlier}, true, Private(Some(Earlier), Free)) else Books({}, true, Private(None, Nothing));
    Loop(books, None, 0, EMPTY, Heap, P.PostArea(0, 0))
  }

  /** From the end of the loop on. */
  function Conclude(env: Env, end: Step, stale: Stale): Outcome
    requires !end.Next?
  {
    match end
    case Fail(books) => Failed(books)
    case Crash => Aborted
    case Break(loop) => Finalize(env, loop, stale)
  }

  /** The whole request from the given start. */
  function AnswerFrom(chain: seq<Item>, env: Env, start: Loop, stale: Stale): Outcome {
    if !env.startSpace then Failed(start.books)
    else Conclude(env, Run(chain, env, 0, start), stale)
  }

  /** `owned` tells whether the request already holds a reservation. */
  function Answer(chain: seq<Item>, env: Env, owned: bool, stale: Stale): Outcome {
    AnswerFrom(chain, env, Start(owned), stale)
  }

  // ---- Every reservation is given back exactly once ----

  /** A response lies in one piece, split into buffers that are not empty, and is as long as it says or streamed. */
  predicate Gathered(r: Response) {
    && P.Contiguous(StartOf(r), r.layout, |r.layout|)
    && (r.layout != [] ==> P.Sum(r.layout, |r.layout|) == r.contentLength)
    && (|r.layout| >= 2 ==> r.layout[0].size > 0)
  }

  /** Programs answer with a final status. */
  predicate Proper(r: Response) {
    200 <= r.status < 600 && Gathered(r)
  }

  ghost predicate Valid(env: Env) {
    && (forall i, p :: Proper(env.program(i, p)))
    && Gathered(env.fetched)
    && (forall i :: env.place(i) != 0)
  }

  /** As queued by the VCL functions: only the first item can be a fetch, and the last is a program. */
  predicate WellFormed(chain: seq<Item>) {
    && 0 < |chain| <= 16 && chain[|chain| - 1].Program?
    && forall i :: 0 < i < |chain| ==> chain[i].Program?
  }

  function Base(owned: bool): set<Slot> {
    if owned then {Earlier} else {}
  }

  function AsSet(slot: Option<Slot>): set<Slot> {
    if slot.None? then {} else {slot.value}
  }

  /**
   At the head of the loop at most one VM is reserved beside what the request held before,
   that of the latest response.
   */
  ghost predicate Head(s: Loop, owned: bool, index: nat) {
    && s.books.legal && s.books.private == Start(owned).books.private
    && s.books.held == Base(owned) + AsSet(s.last)
    && (s.last.Some? ==> s.last.value.Own? && s.last.value.index < index)
    && s.home == if s.last.Some? then InVm(s.last.value) else Heap
  }

  /** Only what the request held before. */
  ghost predicate Settled(b: Books, owned: bool) {
    b.legal && b.private == Start(owned).books.private && b.held == Base(owned)
  }

  /** Where the loop ended with a program in the middle of the chain, its VM is given back already. */
  ghost predicate Interrupted(s: Loop, owned: bool) {
    Settled(s.books, owned) && s.last.Some? && s.last.value.Own? && s.home == InVm(s.last.value)
  }

  /** A turn in the middle of the chain keeps the books, and leaves nothing behind where the loop ends. */
  lemma MiddleTurn(chain: seq<Item>, index: nat, env: Env, s: Loop, owned: bool)
    requires index + 1 < |chain| && chain[index].Program? && Head(s, owned, index)
    ensures var step := TakeTurn(chain, index, env, s);
            && (step.Next? ==>
                  && Head(step.loop, owned, index + 1)
                  && step.loop.last.Some? && step.loop.lastTenant == chain[index].tenant)
            && (step.Break? ==> Interrupted(step.loop, owned))
            && (step.Fail? ==> Settled(step.books, owned))
  {
  }

  /** Fetching uses no VM. */
  lemma FetchTurn(chain: seq<Item>, index: nat, env: Env, s: Loop, owned: bool)
    requires index < |chain| && chain[index].Fetch? && Head(s, owned, index) && s.last.None?
    ensures var step := TakeTurn(chain, index, env, s);
            && (step.Next? ==> Head(step.loop, owned, index + 1) && step.loop.last.None?)
            && (step.Break? ==> Head(step.loop, owned, index + 1) && step.loop.last.None?)
            && !step.Fail? && !step.Crash?
  {
  }

  /** The slot that the end of the request will free. */
  function OwnedBy(p: Private): set<Slot> {
    if p.finish.Nothing? then {} else AsSet(p.slot)
  }

  /** What is reserved is exactly what the end of the request will free. */
  ghost predicate Accounted(b: Books) {
    b.legal && b.held == OwnedBy(b.private)
  }

  /** Also an early release will free it. */
  ghost predicate Releasable(b: Books) {
    Accounted(b) && !b.private.finish.FreeWithContext?
  }

  /** The last program runs in the VM of the one before. */
  predicate Taken(chain: seq<Item>, s: Loop)
    requires |chain| > 0
  {
    SameVm(s, chain[|chain| - 1])
  }

  /** What the last turn leaves where it did not fail: the VM is held, and the request's private data names it. */
  ghost predicate Concluded(chain: seq<Item>, env: Env, s: Loop, after: Loop)
    requires |chain| > 0
  {
    && after.last.Some? && after.home == InVm(after.last.value) && after.last.value in after.books.held
    && after.books.private == Private(after.last, if Taken(chain, s) && !env.plus then FreeWithContext else Free)
  }

  /** The last turn, when it reserves for itself, or takes over the only reservation in a build that can release it. */
  lemma LastTurn(chain: seq<Item>, env: Env, s: Loop, owned: bool)
    requires |chain| > 0 && chain[|chain| - 1].Program? && Head(s, owned, |chain| - 1)
    ensures var step := TakeTurn(chain, |chain| - 1, env, s);
            step.Next? || step.Break? ==>
              && (!Taken(chain, s) || (env.plus && !owned) ==> Releasable(step.loop.books))
              && (Taken(chain, s) && !owned ==> Accounted(step.loop.books))
              && Concluded(chain, env, s, step.loop)
              && (Taken(chain, s) ==> step.loop.last == s.last && step.loop.books.held == Base(owned) + AsSet(s.last))
  {
  }

  lemma LastFails(chain: seq<Item>, env: Env, s: Loop, owned: bool)
    requires |chain| > 0 && chain[|chain| - 1].Program? && Head(s, owned, |chain| - 1)
    ensures var step := TakeTurn(chain, |chain| - 1, env, s);
            step.Fail? ==>
              && (!Taken(chain, s) || (env.plus && !owned) ==> Releasable(step.books))
              && (Taken(chain, s) && !owned ==> Accounted(step.books))
  {
  }

  ghost predicate Balanced(o: Outcome) {
    o.Aborted? || (EndRequest(o.books).legal && EndRequest(o.books).held == {})
  }

  lemma FinalizeBalances(env: Env, s: Loop, stale: Stale)
    requires Accounted(s.books) && (Releasable(s.books) || s.last.None? || env.early == 0)
    ensures Balanced(Finalize(env, s, stale))
  {
  }

  /** The last two programs are the same, and the chain can get to the last one. */
  predicate Reuses(chain: seq<Item>)
    requires WellFormed(chain)
  {
    Shares(chain, |chain| - 1) && Reachable(chain, |chain| - 1)
  }

  /** Item `i` runs in the VM of the item before. */
  predicate Shares(chain: seq<Item>, i: int) {
    0 < i < |chain| && chain[i].Program? && chain[i - 1].Program? && chain[i - 1].tenant == chain[i].tenant
  }

  /** No program before item `i` ends the chain with every final status. */
  predicate Reachable(chain: seq<Item>, i: nat)
    requires i <= |chain|
  {
    forall j :: 0 <= j < i && chain[j].Program? ==> chain[j].breakStatus > 200
  }

  /** When a request's reservations are sure to be given back. */
  predicate Safe(plus: bool, early: nat, chain: seq<Item>, owned: bool)
    requires WellFormed(chain)
  {
    Reuses(chain) ==> !owned && (plus || early == 0)
  }

  /** What is known at the head of the loop about the items before. */
  ghost predicate HeadAt(chain: seq<Item>, s: Loop, owned: bool, index: nat)
    requires index <= |chain|
  {
    && Head(s, owned, index) && Reachable(chain, index)
    && (index == 0 || chain[index - 1].Fetch? ==> s.last.None?)
    && (index > 0 && chain[index - 1].Program? ==> s.last.Some? && s.lastTenant == chain[index - 1].tenant)
  }

  /** A program with a break status of at most 200 is never passed. */
  lemma NotBroken(chain: seq<Item>, index: nat, env: Env, s: Loop)
    requires index < |chain| && chain[index].Program? && Valid(env) && TakeTurn(chain, index, env, s).Next?
    ensures chain[index].breakStatus > 200
  {
  }

  /** A turn before the last leads to the head of the loop again. */
  lemma HeadNext(chain: seq<Item>, index: nat, env: Env, s: Loop, owned: bool)
    requires WellFormed(chain) && Valid(env) && index + 1 < |chain| && HeadAt(chain, s, owned, index)
    requires TakeTurn(chain, index, env, s).Next?
    ensures HeadAt(chain, TakeTurn(chain, index, env, s).loop, owned, index + 1)
  {
    if chain[index].Fetch? {
      FetchTurn(chain, index, env, s, owned);
    } else {
      MiddleTurn(chain, index, env, s, owned);
      NotBroken(chain, index, env, s);
    }
  }

  lemma LastRun(chain: seq<Item>, env: Env, s: Loop)
    requires |chain| > 0
    ensures var step := TakeTurn(chain, |chain| - 1, env, s);
            Run(chain, env, |chain| - 1, s) == if step.Next? then Break(step.loop) else step
  {
    var step := TakeTurn(chain, |chain| - 1, env, s);
    if step.Next? {
      assert Run(chain, env, |chain|, step.loop) == Break(step.loop);
    }
  }

  /** The last turn and what follows. */
  lemma LastBalances(chain: seq<Item>, env: Env, s: Loop, owned: bool, stale: Stale)
    requires WellFormed(chain) && Safe(env.plus, env.early, chain, owned) && HeadAt(chain, s, owned, |chain| - 1)
    ensures Balanced(Conclude(env, Run(chain, env, |chain| - 1, s), stale))
  {
    var step := TakeTurn(chain, |chain| - 1, env, s);
    if step.Fail? {
      LastFails(chain, env, s, owned);
    } else if !step.Crash? {
      LastTurn(chain, env, s, owned);
      LastRun(chain, env, s);
      FinalizeBalances(env, step.loop, stale);
    }
  }

  /** Whatever happens from item `index` on, the request ends with its reservations given back. */
  lemma {:induction false} RunBalances(chain: seq<Item>, env: Env, index: nat, s: Loop, owned: bool, stale: Stale)
    requires WellFormed(chain) && Valid(env) && Safe(env.plus, env.early, chain, owned)
    requires index < |chain| && HeadAt(chain, s, owned, index)
    ensures Balanced(Conclude(env, Run(chain, env, index, s), stale))
    decreases |chain| - index
  {
    var step := TakeTurn(chain, index, env, s);
    if index + 1 == |chain| {
      LastBalances(chain, env, s, owned, stale);
    } else if step.Next? {
      HeadNext(chain, index, env, s, owned);
      RunBalances(chain, env, index + 1, step.loop, owned, stale);
    } else if chain[index].Fetch? {
      FetchTurn(chain, index, env, s, owned);
      FinalizeBalances(env, step.loop, stale);
    } else {
      MiddleTurn(chain, index, env, s, owned);
      if step.Break? {
        FinalizeBalances(env, step.loop, stale);
      }
    }
  }

  const SHORT: Response := Response(200, 0, [], [])

  /** Everything is granted, and every program answers with an empty success. */
  ghost function Smooth(plus: bool, early: nat, finishSpace: bool): (env: Env)
    ensures Valid(env)
  {
    Env(plus, early, true, finishSpace, true, true, false, None, true, SHORT,
        i => true, i => [], i => P.PostArea(0, 0), i => 1, P.Exactly, (i, post) => SHORT)
  }

  /** Without trouble the loop gets to any item that no earlier program's break status keeps it from. */
  lemma {:induction false} SmoothReaches(chain: seq<Item>, env: Env, owned: bool, index: nat) returns (s: Loop)
    requires WellFormed(chain) && index < |chain| && Reachable(chain, index)
    requires env == Smooth(env.plus, env.early, env.finishSpace)
    ensures Run(chain, env, 0, Start(owned)) == Run(chain, env, index, s)
    ensures HeadAt(chain, s, owned, index) && s.response.layout == []
  {
    s := Start(owned);
    if index > 0 {
      var before := SmoothReaches(chain, env, owned, index - 1);
      SmoothPasses(chain, env, before, owned, index - 1);
      HeadNext(chain, index - 1, env, before, owned);
      s := TakeTurn(chain, index - 1, env, before).loop;
    }
  }

  lemma SmoothPasses(chain: seq<Item>, env: Env, s: Loop, owned: bool, index: nat)
    requires index + 1 < |chain| && HeadAt(chain, s, owned, index) && Reachable(chain, index + 1) &&
             s.response.layout == []
    requires env == Smooth(env.plus, env.early, env.finishSpace)
    ensures TakeTurn(chain, index, env, s).Next? && TakeTurn(chain, index, env, s).loop.response.layout == []
  {
  }

  /** A chain that is not safe loses a reservation in the smoothest of requests. */
  lemma UnsafeLeaks(chain: seq<Item>, plus: bool, early: nat, owned: bool, stale: Stale)
    requires WellFormed(chain) && !Safe(plus, early, chain, owned)
    ensures !Balanced(Answer(chain, Smooth(plus, early, true), owned, stale))
  {
    var env := Smooth(plus, early, true);
    var n := |chain| - 1;
    var s := SmoothReaches(chain, env, owned, n);
    LastTurn(chain, env, s, owned);
    var step := TakeTurn(chain, n, env, s);
    assert step.Next? || step.Break?;
    LastRun(chain, env, s);
    assert s.last.value != Earlier && s.last.value in step.loop.books.held;
  }

  /**
   Every reservation is given back exactly once, whatever the surroundings answer, if
   and only if the chain does not end in a re-used VM, or the request held no VM before
   and its build or settings do not release that VM without a context.
   */
  lemma BalanceExact(chain: seq<Item>, plus: bool, early: nat, owned: bool, stale: Stale)
    requires WellFormed(chain)
    ensures (forall env: Env | Valid(env) && env.plus == plus && env.early == early ::
               Balanced(Answer(chain, env, owned, stale)))
            <==> Safe(plus, early, chain, owned)
  {
    if Safe(plus, early, chain, owned) {
      forall env: Env | Valid(env) && env.plus == plus && env.early == early
        ensures Balanced(Answer(chain, env, owned, stale))
      {
        RunBalances(chain, env, 0, Start(owned), owned, stale);
      }
    } else {
      UnsafeLeaks(chain, plus, early, owned, stale);
      assert Valid(Smooth(plus, early, true));
    }
  }

  /** During a turn at most two VMs of the chain are reserved, the previous one and the current one. */
  lemma AtMostTwo(chain: seq<Item>, index: nat, env: Env, s: Loop, owned: bool)
    requires index < |chain| && chain[index].Program? && Head(s, owned, index)
    ensures var r := ReserveFor(chain[index], index + 1 < |chain|, index, env, s);
            && r.books.held <= Base(owned) + AsSet(s.last) + {Own(index)}
            && Held(r.books, s.home)
  {
  }

  // ---- What a retry of the request finds ----

  /** The request's private data names a VM that is not reserved. */
  predicate Dangles(b: Books) {
    b.private.slot.Some? && b.private.slot.value !in b.held
  }

  /** Every reservation that a retry is granted on the books is of a VM that is then reserved. */
  ghost predicate RetriesWell(b: Books) {
    forall index, granted, plus, space ::
      ReserveForRequest(b, index, granted, plus, space).1.Some? ==>
        ReserveForRequest(b, index, granted, plus, space).1.value in
          ReserveForRequest(b, index, granted, plus, space).0.held
  }

  lemma RetryReserves(b: Books)
    ensures RetriesWell(b) <==> !Dangles(b)
  {
    if Dangles(b) {
      var (after, slot) := ReserveForRequest(b, 0, false, false, false);
      assert slot.Some? && slot.value !in after.held;
    }
  }

  lemma LastFailsDangling(chain: seq<Item>, env: Env, s: Loop, owned: bool)
    requires |chain| > 0 && chain[|chain| - 1].Program? && Head(s, owned, |chain| - 1)
    ensures var step := TakeTurn(chain, |chain| - 1, env, s);
            step.Fail? && Dangles(step.books) ==> !env.plus && !env.finishSpace && !owned && !Taken(chain, s)
  {
  }

  /** The books that a request can leave to a retry name no VM that is given back. */
  predicate RetrySafe(chain: seq<Item>, plus: bool, finishSpace: bool, owned: bool)
    requires WellFormed(chain)
  {
    plus || finishSpace || owned || Shares(chain, |chain| - 1) || !Reachable(chain, |chain| - 1)
  }

  lemma LastLeaves(chain: seq<Item>, env: Env, s: Loop, owned: bool, stale: Stale)
    requires WellFormed(chain) && RetrySafe(chain, env.plus, env.finishSpace, owned) &&
             HeadAt(chain, s, owned, |chain| - 1)
    ensures var o := Conclude(env, Run(chain, env, |chain| - 1, s), stale);
            o.Aborted? || !Dangles(o.books)
  {
    var step := TakeTurn(chain, |chain| - 1, env, s);
    if step.Fail? {
      LastFailsDangling(chain, env, s, owned);
    } else if !step.Crash? {
      LastTurn(chain, env, s, owned);
      LastRun(chain, env, s);
    }
  }

  lemma {:induction false} RunLeaves(chain: seq<Item>, env: Env, index: nat, s: Loop, owned: bool, stale: Stale)
    requires WellFormed(chain) && Valid(env) && RetrySafe(chain, env.plus, env.finishSpace, owned)
    requires index < |chain| && HeadAt(chain, s, owned, index)
    ensures var o := Conclude(env, Run(chain, env, index, s), stale);
            o.Aborted? || !Dangles(o.books)
    decreases |chain| - index
  {
    var step := TakeTurn(chain, index, env, s);
    if index + 1 == |chain| {
      LastLeaves(chain, env, s, owned, stale);
    } else if step.Next? {
      HeadNext(chain, index, env, s, owned);
      RunLeaves(chain, env, index + 1, step.loop, owned, stale);
    } else if chain[index].Fetch? {
      FetchTurn(chain, index, env, s, owned);
    } else {
      MiddleTurn(chain, index, env, s, owned);
    }
  }

  lemma UnsafeDangles(chain: seq<Item>, owned: bool, early: nat, stale: Stale)
    requires WellFormed(chain) && !RetrySafe(chain, false, false, owned)
    ensures var o := Answer(chain, Smooth(false, early, false), owned, stale);
            o.Failed? && Dangles(o.books)
  {
    var env := Smooth(false, early, false);
    var n := |chain| - 1;
    var s := SmoothReaches(chain, env, owned, n);
    assert TakeTurn(chain, n, env, s).Fail?;
  }

  /**
   Whatever a request met, a retry on the books it left is only handed VMs that are
   reserved, if and only if the build or the workspace has room for the finishing record,
   a VM was held before, or the last program does not reserve one for itself.
   */
  lemma RetryExact(chain: seq<Item>, plus: bool, finishSpace: bool, owned: bool, stale: Stale)
    requires WellFormed(chain)
    ensures (forall env: Env | Valid(env) && env.plus == plus && env.finishSpace == finishSpace ::
               Answer(chain, env, owned, stale).Aborted? || RetriesWell(Answer(chain, env, owned, stale).books))
            <==> RetrySafe(chain, plus, finishSpace, owned)
  {
    if RetrySafe(chain, plus, finishSpace, owned) {
      forall env: Env | Valid(env) && env.plus == plus && env.finishSpace == finishSpace
        ensures Answer(chain, env, owned, stale).Aborted? || RetriesWell(Answer(chain, env, owned, stale).books)
      {
        RunLeaves(chain, env, 0, Start(owned), owned, stale);
        if !Answer(chain, env, owned, stale).Aborted? {
          RetryReserves(Answer(chain, env, owned, stale).books);
        }
      }
    } else {
      UnsafeDangles(chain, owned, 0, stale);
      RetryReserves(Answer(chain, Smooth(false, 0, false), owned, stale).books);
      assert Valid(Smooth(false, 0, false));
    }
  }
}
