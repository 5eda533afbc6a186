/**
 What a chain delivers: the composition of its programs, as far as every transfer
 within one VM left the response intact and the body is still there when it is read.
 */
module ChainBody {
  import opened GuestMemory
  import opened Options
  import opened Pull
  import opened Chain
  import P = Post

  // ---- Buffers and their bytes ----

  lemma {:induction false} ConcatSnoc(buffers: seq<Bytes>, last: Bytes)
    ensures Concat(buffers + [last]) == Concat(buffers) + last
  {
    if buffers == [] {
      assert [last][1..] == [];
    } else {
      assert (buffers + [last])[1..] == buffers[1..] + [last];
      ConcatSnoc(buffers[1..], last);
    }
  }

  lemma {:induction false} PiecesConcat(mem: Memory, layout: seq<P.Buffer>, pieces: seq<Bytes>, n: nat)
    requires n <= |layout| == |pieces| && P.AllInRange(mem, layout)
    requires forall i :: 0 <= i < |layout| ==> pieces[i] == Read(mem, layout[i].addr, layout[i].size)
    ensures Concat(pieces[..n]) == P.Content(mem, layout, n)
  {
    if n > 0 {
      PiecesConcat(mem, layout, pieces, n - 1);
      assert pieces[..n] == pieces[..n - 1] + [pieces[n - 1]];
      ConcatSnoc(pieces[..n - 1], pieces[n - 1]);
    }
  }

  /** As long as the VM is held, the buffers of a response are its body. */
  lemma HeldBuffers(b: Books, home: Home, r: Response, stale: Stale)
    requires Held(b, home)
    ensures Concat(BuffersOf(b, home, r, stale)) == BodyOf(r)
  {
    var pieces := BuffersOf(b, home, r, stale);
    PiecesConcat(r.image, r.layout, pieces, |pieces|);
    assert pieces[..|pieces|] == pieces;
  }

  // ---- The composition ----

  /** What item `i` answers to the answer of the items before. */
  function Denote(chain: seq<Item>, env: Env, i: nat): Response
    requires i < |chain|
  {
    if chain[i].Fetch? then env.fetched
    else if i == 0 then env.program(0, if env.isPost then env.body else None)
    else env.program(i, Some(BodyOf(Denote(chain, env, i - 1))))
  }

  /** The answer of item `i` ends the chain. */
  predicate Stops(chain: seq<Item>, env: Env, i: nat)
    requires i < |chain|
  {
    if chain[i].Fetch? then !env.fetchOk || env.fetched.status >= 400
    else Denote(chain, env, i).status >= chain[i].breakStatus
  }

  /** The POST area of the VM of item `i`, before and after it was given its POST. */
  function AreaBefore(chain: seq<Item>, env: Env, i: nat): P.PostArea
    requires i < |chain|
    decreases i, 0
  {
    if Shares(chain, i) then AreaAfter(chain, env, i - 1) else env.area(i)
  }

  function AreaAfter(chain: seq<Item>, env: Env, i: nat): P.PostArea
    requires i < |chain|
    decreases i, 1
  {
    var before := AreaBefore(chain, env, i);
    if i == 0 then
      if env.isPost && env.body.Some? && env.body.value != [] then P.Allocated(before, POST_BUFFER, env.place(0))
      else before
    else if Denote(chain, env, i - 1).layout == [] then before
    else P.Allocated(before, Denote(chain, env, i - 1).contentLength, env.place(i))
  }

  /** The previous response is not damaged on its way into item `i`: another VM, or no overlap. */
  predicate Intact(chain: seq<Item>, env: Env, i: nat)
    requires i < |chain|
  {
    Shares(chain, i) ==>
      var prev := Denote(chain, env, i - 1);
      !P.Damaged(StartOf(prev), prev.layout, |prev.layout|,
                 P.Allocated(AreaBefore(chain, env, i), prev.contentLength, env.place(i)).data)
  }

  /** So is every transfer that the chain comes to. */
  predicate IntactFrom(chain: seq<Item>, env: Env, i: nat)
    requires i <= |chain|
    decreases |chain| - i
  {
    i < |chain| ==> Intact(chain, env, i) && (!Stops(chain, env, i) ==> IntactFrom(chain, env, i + 1))
  }

  /** The loop has computed the composition up to item `index`. */
  ghost predicate Follows(chain: seq<Item>, env: Env, s: Loop, index: nat)
    requires index <= |chain|
  {
    index > 0 ==>
      && s.response == Denote(chain, env, index - 1)
      && (chain[index - 1].Program? ==> s.area == AreaAfter(chain, env, index - 1))
  }

  lemma {:induction false} Answers(chain: seq<Item>, env: Env, i: nat)
    requires Valid(env) && i < |chain|
    ensures Gathered(Denote(chain, env, i))
  {
  }

  lemma FirstGiven(chain: seq<Item>, env: Env, s: Loop, same: bool)
    requires 0 < |chain|
    ensures var given := PostFor(0, env, s, same);
            given.Given? ==>
              given.post == (if env.isPost then env.body else None) && given.area == AreaAfter(chain, env, 0)
  {
  }

  /** What a later program is given is the composition so far. */
  lemma NextGiven(chain: seq<Item>, index: nat, env: Env, s: Loop, owned: bool)
    requires Valid(env) && 0 < index < |chain| && chain[index].Program?
    requires HeadAt(chain, s, owned, index) && Follows(chain, env, s, index) && Intact(chain, env, index)
    ensures var given := PostFor(index, env, s, SameVm(s, chain[index]));
            && (given.Given? ==>
                  && given.post == Some(BodyOf(Denote(chain, env, index - 1)))
                  && given.area == AreaAfter(chain, env, index))
            && !given.GivenCrash?
  {
    var prev := Denote(chain, env, index - 1);
    Answers(chain, env, index - 1);
    assert SameVm(s, chain[index]) <==> Shares(chain, index);
    if Shares(chain, index) {
      P.TakenIsResponse(P.Same(env.copy), prev.image, s.area, prev.layout, prev.contentLength, env.place(index),
                        StartOf(prev));
    } else {
      P.TakenIsResponse(P.Other(prev.image), env.memory(index), env.area(index), prev.layout, prev.contentLength,
                        env.place(index), StartOf(prev));
    }
  }

  /** A turn that neither fails nor crashes computes the item's composition. */
  lemma TurnDenotes(chain: seq<Item>, index: nat, env: Env, s: Loop, owned: bool)
    requires Valid(env) && index < |chain|
    requires HeadAt(chain, s, owned, index) && Follows(chain, env, s, index) && Intact(chain, env, index)
    ensures var step := TakeTurn(chain, index, env, s);
            && (step.Next? ==> Follows(chain, env, step.loop, index + 1) && !Stops(chain, env, index))
            && (step.Break? ==> Follows(chain, env, step.loop, index + 1) && Stops(chain, env, index))
            && !step.Crash?
  {
    if chain[index].Program? {
      if index == 0 {
        FirstGiven(chain, env, s, SameVm(s, chain[0]));
      } else {
        NextGiven(chain, index, env, s, owned);
      }
    }
  }

  /** The last item that the loop came to. */
  function StopIndex(chain: seq<Item>, env: Env, index: nat, s: Loop): (k: nat)
    requires index < |chain|
    ensures index <= k < |chain|
    decreases |chain| - index
  {
    var step := TakeTurn(chain, index, env, s);
    if step.Next? && index + 1 < |chain| then StopIndex(chain, env, index + 1, step.loop) else index
  }

  /** No item from `index` up to `k` ends the chain. */
  predicate PassesTo(chain: seq<Item>, env: Env, index: nat, k: nat)
    requires index <= k < |chain|
    decreases k - index
  {
    index < k ==> !Stops(chain, env, index) && PassesTo(chain, env, index + 1, k)
  }

  lemma {:induction false} PassedAt(chain: seq<Item>, env: Env, index: nat, k: nat, i: nat)
    requires index <= i < k < |chain| && PassesTo(chain, env, index, k)
    ensures !Stops(chain, env, i)
    decreases i - index
  {
    if index < i {
      PassedLater(chain, env, index, k);
      PassedAt(chain, env, index + 1, k, i);
    }
  }

  lemma PassedLater(chain: seq<Item>, env: Env, index: nat, k: nat)
    requires index < k < |chain| && PassesTo(chain, env, index, k)
    ensures PassesTo(chain, env, index + 1, k)
  {
  }

  /** The response is that of the first item from `index` on that ends the chain, or of the last. */
  ghost predicate Composed(chain: seq<Item>, env: Env, index: nat, k: nat, response: Response) {
    && index <= k < |chain| && response == Denote(chain, env, k)
    && PassesTo(chain, env, index, k) && (Stops(chain, env, k) || k == |chain| - 1)
  }

  /** The loop is at its head with the composition so far, and no transfer ahead damages it. */
  ghost predicate OnTrack(chain: seq<Item>, env: Env, s: Loop, owned: bool, index: nat)
    requires index <= |chain|
  {
    HeadAt(chain, s, owned, index) && Follows(chain, env, s, index) && IntactFrom(chain, env, index)
  }

  lemma StaysOnTrack(chain: seq<Item>, env: Env, index: nat, s: Loop, owned: bool)
    requires WellFormed(chain) && Valid(env) && index + 1 < |chain| && OnTrack(chain, env, s, owned, index)
    requires TakeTurn(chain, index, env, s).Next?
    ensures OnTrack(chain, env, TakeTurn(chain, index, env, s).loop, owned, index + 1) && !Stops(chain, env, index)
  {
    TurnDenotes(chain, index, env, s, owned);
    HeadNext(chain, index, env, s, owned);
  }

  /** Program `i` gets a VM: that of the program before, one that the request held before, or a new one. */
  predicate GetsVm(chain: seq<Item>, env: Env, owned: bool, i: nat)
    requires i < |chain|
  {
    || Shares(chain, i)
    || (i + 1 < |chain| && env.granted(i))
    || (i + 1 == |chain| && (owned || (env.granted(i) && (env.plus || env.finishSpace))))
  }

  /** There is a body to give to the first program; to a later one, the previous response fits. */
  predicate TakesPost(chain: seq<Item>, env: Env, i: nat)
    requires i < |chain|
  {
    if i == 0 then env.isPost ==> env.body.Some?
    else
      var prev := Denote(chain, env, i - 1);
      P.Fits(if Shares(chain, i) then prev.image else env.memory(i), prev.layout, prev.contentLength,
             P.Allocated(AreaBefore(chain, env, i), prev.contentLength, env.place(i)).data)
  }

  predicate Served(chain: seq<Item>, env: Env, owned: bool, i: nat)
    requires i < |chain|
  {
    chain[i].Fetch? || (GetsVm(chain, env, owned, i) && TakesPost(chain, env, i))
  }

  /** So is every item that the chain comes to. */
  predicate ServedFrom(chain: seq<Item>, env: Env, owned: bool, i: nat)
    requires i <= |chain|
    decreases |chain| - i
  {
    i < |chain| ==> Served(chain, env, owned, i) && (!Stops(chain, env, i) ==> ServedFrom(chain, env, owned, i + 1))
  }

  /** The first item from `i` on that ends the chain, or the last. */
  function FirstStop(chain: seq<Item>, env: Env, i: nat): (k: nat)
    requires i < |chain|
    ensures i <= k < |chain|
    decreases |chain| - i
  {
    if Stops(chain, env, i) || i + 1 == |chain| then i else FirstStop(chain, env, i + 1)
  }

  lemma ReservesIf(chain: seq<Item>, index: nat, env: Env, s: Loop, owned: bool)
    requires index < |chain| && chain[index].Program? && HeadAt(chain, s, owned, index)
    ensures ReserveFor(chain[index], index + 1 < |chain|, index, env, s).slot.Some? <==>
            GetsVm(chain, env, owned, index)
  {
    assert SameVm(s, chain[index]) <==> Shares(chain, index);
  }

  lemma GivenIf(chain: seq<Item>, index: nat, env: Env, s: Loop, owned: bool)
    requires Valid(env) && index < |chain| && chain[index].Program?
    requires HeadAt(chain, s, owned, index) && Follows(chain, env, s, index)
    ensures PostFor(index, env, s, SameVm(s, chain[index])).Given? <==> TakesPost(chain, env, index)
  {
    if index > 0 {
      assert SameVm(s, chain[index]) <==> Shares(chain, index);
      Answers(chain, env, index - 1);
      var prev := s.response;
      P.GatheredNeverCrashes(P.Same(env.copy), prev.image, s.area, prev.layout, prev.contentLength, env.place(index));
      P.GatheredNeverCrashes(P.Other(prev.image), env.memory(index), env.area(index), prev.layout, prev.contentLength,
                             env.place(index));
    }
  }

  /** A turn fails if and only if its item is not served. */
  lemma TurnServed(chain: seq<Item>, index: nat, env: Env, s: Loop, owned: bool)
    requires Valid(env) && index < |chain| && OnTrack(chain, env, s, owned, index)
    ensures TakeTurn(chain, index, env, s).Fail? <==> !Served(chain, env, owned, index)
  {
    TurnDenotes(chain, index, env, s, owned);
    if chain[index].Program? {
      ReservesIf(chain, index, env, s, owned);
      GivenIf(chain, index, env, s, owned);
    }
  }

  /** The run follows the chain up to its first stop, if and only if every item up to there is served. */
  lemma {:induction false} RunServed(chain: seq<Item>, env: Env, index: nat, s: Loop, owned: bool)
    requires WellFormed(chain) && Valid(env) && index < |chain| && OnTrack(chain, env, s, owned, index)
    ensures var end := Run(chain, env, index, s);
            && !end.Crash?
            && (end.Break? <==> ServedFrom(chain, env, owned, index))
            && (end.Break? ==>
                  && StopIndex(chain, env, index, s) == FirstStop(chain, env, index)
                  && end.loop.response == Denote(chain, env, FirstStop(chain, env, index)))
    decreases |chain| - index
  {
    TurnServed(chain, index, env, s, owned);
    TurnDenotes(chain, index, env, s, owned);
    var step := TakeTurn(chain, index, env, s);
    if step.Next? && index + 1 < |chain| {
      StaysOnTrack(chain, env, index, s, owned);
      RunServed(chain, env, index + 1, step.loop, owned);
    } else if step.Next? {
      assert Run(chain, env, index + 1, step.loop) == Break(step.loop);
    }
  }

  lemma {:induction false} FirstStopIs(chain: seq<Item>, env: Env, index: nat)
    requires index < |chain|
    ensures Composed(chain, env, index, FirstStop(chain, env, index), Denote(chain, env, FirstStop(chain, env, index)))
    decreases |chain| - index
  {
    if !Stops(chain, env, index) && index + 1 < |chain| {
      FirstStopIs(chain, env, index + 1);
    }
  }

  /** The response at the end is that of the first item that ends the chain, or of the last. */
  lemma RunDenotes(chain: seq<Item>, env: Env, index: nat, s: Loop, owned: bool)
    requires WellFormed(chain) && Valid(env) && index < |chain| && OnTrack(chain, env, s, owned, index)
    ensures var end := Run(chain, env, index, s);
            && !end.Crash?
            && (end.Break? ==> Composed(chain, env, index, StopIndex(chain, env, index, s), end.loop.response))
  {
    RunServed(chain, env, index, s, owned);
    FirstStopIs(chain, env, index);
  }

  /** A loop whose latest response is the given one, in a VM with the given POST area. */
  function After(s: Loop, status: int, mem: Memory, layout: seq<P.Buffer>, area: P.PostArea): Loop
    requires P.AllInRange(mem, layout)
  {
    s.(response := Response(status, P.Sum(layout, |layout|), mem, layout), area := area)
  }

  ghost predicate GivesBody(index: nat, env: Env, s: Loop, same: bool) {
    var given := NextPost(index, env, s, same);
    given.Given? && given.post == Some(BodyOf(s.response))
  }

  /**
   The condition is exact: a program that re-uses a VM is given the previous response for
   all contents of the memory and all outcomes of overlapping copies if and only if the
   response is not damaged.
   */
  lemma GivenExact(index: nat, env: Env, s: Loop, status: int, size: nat, c: nat, layout: seq<P.Buffer>,
                   area: P.PostArea)
    requires P.Contiguous(c, layout, |layout|) && c + P.Sum(layout, |layout|) <= size
    requires P.Allocated(area, P.Sum(layout, |layout|), env.place(index)).data + P.Sum(layout, |layout|) <= size
    requires |layout| <= 1 || layout[0].size > 0
    ensures (forall copy: P.Copier, mem: Memory | |mem| == size ::
               && P.AllInRange(mem, layout)
               && GivesBody(index, env.(copy := copy), After(s, status, mem, layout, area), true))
            <==> !P.Damaged(c, layout, |layout|, P.Allocated(area, P.Sum(layout, |layout|), env.place(index)).data)
  {
    P.TransferExact(size, area, c, layout, env.place(index));
    forall copy: P.Copier, mem: Memory | |mem| == size
      ensures P.AllInRange(mem, layout)
      ensures GivesBody(index, env.(copy := copy), After(s, status, mem, layout, area), true) <==>
              P.Gives(copy, mem, area, layout, P.Sum(layout, |layout|), env.place(index))
    {
      P.ContiguousInRange(mem, c, layout, |layout|);
    }
  }

  // ---- Where the loop ends ----

  /** Where the latest response lies, and who holds the VM, when the loop ended with item `k`. */
  ghost predicate EndsIn(chain: seq<Item>, env: Env, s: Loop, owned: bool, k: nat)
    requires k < |chain|
  {
    && (chain[k].Fetch? ==> s.last.None? && s.home == Heap)
    && (chain[k].Program? && k < |chain| - 1 ==> Interrupted(s, owned))
    && (k == |chain| - 1 ==>
          && s.last.Some? && s.home == InVm(s.last.value) && s.last.value in s.books.held
          && s.books.private == Private(s.last, if Shares(chain, k) && !env.plus then FreeWithContext else Free))
  }

  lemma {:induction false} RunEndsIn(chain: seq<Item>, env: Env, index: nat, s: Loop, owned: bool)
    requires WellFormed(chain) && Valid(env) && index < |chain| && HeadAt(chain, s, owned, index)
    ensures var end := Run(chain, env, index, s);
            end.Break? ==> EndsIn(chain, env, end.loop, owned, StopIndex(chain, env, index, s))
    decreases |chain| - index
  {
    var step := TakeTurn(chain, index, env, s);
    if index + 1 == |chain| {
      LastTurn(chain, env, s, owned);
      if step.Next? {
        assert Run(chain, env, index + 1, step.loop) == Break(step.loop);
      }
    } else if step.Next? {
      HeadNext(chain, index, env, s, owned);
      RunEndsIn(chain, env, index + 1, step.loop, owned);
    } else if chain[index].Fetch? {
      FetchTurn(chain, index, env, s, owned);
    } else {
      MiddleTurn(chain, index, env, s, owned);
    }
  }

  // ---- What aborts the process ----

  /** A response gathered from a VM can be passed on without a crash. */
  lemma TurnGathers(chain: seq<Item>, index: nat, env: Env, s: Loop)
    requires Valid(env) && index < |chain| && Gathered(s.response)
    ensures var step := TakeTurn(chain, index, env, s);
            !step.Crash? && (step.Next? || step.Break? ==> Gathered(step.loop.response))
  {
    if chain[index].Program? {
      var prev := s.response;
      P.GatheredNeverCrashes(P.Same(env.copy), prev.image, s.area, prev.layout, prev.contentLength, env.place(index));
      P.GatheredNeverCrashes(P.Other(prev.image), env.memory(index), env.area(index), prev.layout, prev.contentLength,
                             env.place(index));
    }
  }

  lemma {:induction false} RunGathers(chain: seq<Item>, env: Env, index: nat, s: Loop)
    requires Valid(env) && index <= |chain| && Gathered(s.response)
    ensures var end := Run(chain, env, index, s);
            !end.Crash? && (end.Break? ==> Gathered(end.loop.response))
    decreases |chain| - index
  {
    if index < |chain| {
      TurnGathers(chain, index, env, s);
      var step := TakeTurn(chain, index, env, s);
      if step.Next? {
        RunGathers(chain, env, index + 1, step.loop);
      }
    }
  }

  /**
   The process aborts if and only if the loop ends with a program whose answer is streamed,
   short and to be copied.
   */
  lemma AbortExact(chain: seq<Item>, env: Env, owned: bool, stale: Stale)
    requires WellFormed(chain) && Valid(env)
    ensures var end := Run(chain, env, 0, Start(owned));
            Answer(chain, env, owned, stale).Aborted? <==>
              && env.startSpace && end.Break? && chain[StopIndex(chain, env, 0, Start(owned))].Program?
              && Streamed(end.loop.response) && end.loop.response.contentLength < env.early && env.bodySpace
  {
    RunGathers(chain, env, 0, Start(owned));
    RunEndsIn(chain, env, 0, Start(owned), owned);
  }

  // ---- When something is delivered ----

  /** The answer of item `k` takes the process down: it is streamed, short and to be copied. */
  predicate AbortsAt(chain: seq<Item>, env: Env, k: nat)
    requires k < |chain|
  {
    var r := Denote(chain, env, k);
    chain[k].Program? && Streamed(r) && r.contentLength < env.early && env.bodySpace
  }

  /**
   As far as every transfer within one VM leaves the response intact, something is delivered
   if and only if there is workspace to begin and to end with, every item that the chain
   comes to gets a VM and its POST, and the last of them does not take the process down.
   */
  lemma DeliveredExact(chain: seq<Item>, env: Env, owned: bool, stale: Stale)
    requires WellFormed(chain) && Valid(env) && IntactFrom(chain, env, 0)
    ensures Answer(chain, env, owned, stale).Delivered? <==>
              && env.startSpace && env.connSpace && ServedFrom(chain, env, owned, 0)
              && !AbortsAt(chain, env, FirstStop(chain, env, 0))
  {
    RunServed(chain, env, 0, Start(owned), owned);
    RunDenotes(chain, env, 0, Start(owned), owned);
    AbortExact(chain, env, owned, stale);
    DeliversUnless(chain, env, owned, stale);
  }

  lemma DeliversUnless(chain: seq<Item>, env: Env, owned: bool, stale: Stale)
    ensures var o := Answer(chain, env, owned, stale);
            o.Delivered? <==>
              env.startSpace && env.connSpace && Run(chain, env, 0, Start(owned)).Break? && !o.Aborted?
  {
  }

  // ---- What is delivered ----

  /** The body is still there when it is read: there is none, it was copied in time, or its VM is still held. */
  predicate Backed(o: Outcome)
    requires o.Delivered?
  {
    o.delivery.contentLength == 0 ||
    match o.delivery.body
    case NoBytes => true
    case Copied(_, intact) => intact
    case InPlace(_, home) => Held(o.books, home)
  }

  /** The buffers that Varnish pulls from. */
  function Pulled(o: Outcome, stale: Stale): seq<Bytes>
    requires o.Delivered?
  {
    match o.delivery.body
    case NoBytes => [[]]
    case Copied(bytes, _) => [bytes]
    case InPlace(r, home) => BuffersOf(o.books, home, r, stale)
  }

  /** When the body of item `k`, of so many bytes, is still there for delivery. */
  predicate BackedIf(chain: seq<Item>, env: Env, k: nat, length: nat)
    requires k < |chain|
  {
    || length == 0
    || chain[k].Fetch?
    || (k == |chain| - 1 && (length >= env.early || env.bodySpace || (Shares(chain, k) && !env.plus)))
  }

  lemma FinalizeBacked(chain: seq<Item>, env: Env, s: Loop, owned: bool, k: nat, stale: Stale)
    requires WellFormed(chain) && k < |chain| && EndsIn(chain, env, s, owned, k)
    ensures var o := Finalize(env, s, stale);
            o.Delivered? ==> (Backed(o) <==> BackedIf(chain, env, k, o.delivery.contentLength))
  {
  }

  /**
   A delivered body is backed by the workspace, the host's memory or a VM still held if
   and only if it is empty, fetched, or that of the last program and long, copied, or in
   a VM that the early release fails to free.
   */
  lemma BackedExact(chain: seq<Item>, env: Env, owned: bool, stale: Stale)
    requires WellFormed(chain) && Valid(env)
    ensures var o := Answer(chain, env, owned, stale);
            o.Delivered? ==>
              (Backed(o) <==> BackedIf(chain, env, StopIndex(chain, env, 0, Start(owned)), o.delivery.contentLength))
  {
    RunEndsIn(chain, env, 0, Start(owned), owned);
    var end := Run(chain, env, 0, Start(owned));
    if end.Break? {
      FinalizeBacked(chain, env, end.loop, owned, StopIndex(chain, env, 0, Start(owned)), stale);
    }
  }

  // ---- What Varnish gets ----

  lemma ConcatOne(bytes: Bytes)
    ensures Concat([bytes]) == bytes
  {
    assert [bytes][1..] == [];
  }

  /** A backed body is the response's, whatever released VMs hold by then. */
  lemma BackedReads(env: Env, s: Loop, stale: Stale)
    requires Gathered(s.response)
    ensures var o := Finalize(env, s, stale);
            o.Delivered? ==>
              && o.delivery.contentLength == s.response.contentLength
              && (Backed(o) ==> Concat(Pulled(o, stale)) == BodyOf(s.response) || s.response.contentLength == 0)
              && (s.response.contentLength == 0 && o.delivery.body.NoBytes? ==>
                    Concat(Pulled(o, stale)) == BodyOf(s.response))
  {
    var o := Finalize(env, s, stale);
    ConcatOne([]);
    if o.Delivered? {
      match o.delivery.body
      case NoBytes =>
      case Copied(bytes, intact) =>
        ConcatOne(bytes);
        if intact {
          HeldBuffers(s.books, s.home, s.response, stale);
        }
      case InPlace(r, home) =>
        if Held(o.books, home) {
          HeldBuffers(o.books, home, r, stale);
        }
    }
  }

  /** What another request may have left in the place of a response: every byte is different. */
  function Overwritten(r: Response, i: nat): Bytes {
    if i < |r.layout| then Altered(Read(r.image, r.layout[i].addr, r.layout[i].size)) else []
  }

  function Altered(bytes: Bytes): (r: Bytes)
    ensures |r| == |bytes| && forall k :: 0 <= k < |r| ==> r[k] != bytes[k]
  {
    seq(|bytes|, k requires 0 <= k < |bytes| => if bytes[k] == 0 then 1 else 0)
  }

  lemma AlteredDiffers(bytes: Bytes)
    ensures Altered(bytes) == bytes ==> bytes == []
  {
    assert bytes != [] ==> Altered(bytes)[0] != bytes[0];
  }

  lemma {:induction false} AlteredConcat(a: seq<Bytes>, b: seq<Bytes>)
    requires |a| == |b| && forall i :: 0 <= i < |a| ==> b[i] == Altered(a[i])
    ensures |Concat(a)| == |Concat(b)|
    ensures Concat(a) == Concat(b) ==> Concat(a) == []
  {
    if a != [] {
      AlteredConcat(a[1..], b[1..]);
      AlteredDiffers(a[0]);
      if Concat(a) == Concat(b) {
        assert a[0] == Concat(a)[..|a[0]|] && b[0] == Concat(b)[..|a[0]|];
        assert Concat(a[1..]) == Concat(a)[|a[0]|..] && Concat(b[1..]) == Concat(b)[|a[0]|..];
      }
    }
  }

  /** In a VM that is not held, the buffers of a response may have become anything. */
  lemma StaleBuffers(b: Books, home: Home, r: Response)
    requires !Held(b, home) && BodyOf(r) != []
    ensures Concat(BuffersOf(b, home, r, Overwritten)) != BodyOf(r)
  {
    var intact := BuffersOf(b, Heap, r, Overwritten);
    HeldBuffers(b, Heap, r, Overwritten);
    AlteredConcat(intact, BuffersOf(b, home, r, Overwritten));
  }

  lemma UnbackedMayDiffer(env: Env, s: Loop)
    requires Finalize(env, s, Overwritten).Delivered? && !Backed(Finalize(env, s, Overwritten)) &&
             BodyOf(s.response) != []
    ensures Concat(Pulled(Finalize(env, s, Overwritten), Overwritten)) != BodyOf(s.response)
  {
    var o := Finalize(env, s, Overwritten);
    match o.delivery.body
    case Copied(bytes, _) =>
      ConcatOne(bytes);
      StaleBuffers(s.books, s.home, s.response);
    case InPlace(r, home) => StaleBuffers(o.books, home, r);
  }

  /** Whether and in which form a response is delivered does not depend on what released VMs hold. */
  lemma StaleIrrelevant(env: Env, s: Loop, stale: Stale, stale2: Stale)
    ensures Finalize(env, s, stale).Delivered? <==> Finalize(env, s, stale2).Delivered?
    ensures Finalize(env, s, stale).Delivered? ==>
            (Backed(Finalize(env, s, stale)) <==> Backed(Finalize(env, s, stale2)))
  {
  }

  ghost predicate Reads(env: Env, s: Loop, stale: Stale) {
    var o := Finalize(env, s, stale);
    o.Delivered? && Concat(Pulled(o, stale)) == BodyOf(s.response)
  }

  /**
   The bytes that Varnish gets of a buffered body are the program's for everything that
   released VMs may hold by then, if and only if the body is backed.
   */
  lemma ReadsExact(env: Env, s: Loop, stale: Stale)
    requires Gathered(s.response) && BodyOf(s.response) != [] && Finalize(env, s, stale).Delivered?
    ensures (forall other: Stale :: Reads(env, s, other)) <==> Backed(Finalize(env, s, stale))
  {
    StaleIrrelevant(env, s, stale, Overwritten);
    if Backed(Finalize(env, s, stale)) {
      forall other: Stale
        ensures Reads(env, s, other)
      {
        StaleIrrelevant(env, s, stale, other);
        BackedReads(env, s, other);
      }
    } else {
      UnbackedMayDiffer(env, s);
      assert !Reads(env, s, Overwritten);
    }
  }

  lemma DrainedWhole(buffers: seq<Bytes>, sizes: seq<nat>)
    requires buffers != []
    ensures Drain(Entry(buffers, 0), sizes).ended ==> Drain(Entry(buffers, 0), sizes).out == Concat(buffers)
  {
    DrainCorrect(Entry(buffers, 0), sizes);
    assert buffers[0..] == buffers;
  }

  /**
   End to end: as far as every transfer within one VM left the response intact, the
   request is answered for the first item that ends the chain, or the last, and if that
   answer is backed, what Varnish pulls in pieces of any size is the composition of the
   programs up to it. A streamed answer is delivered by a VM that is still held.
   */
  lemma ChainComposes(chain: seq<Item>, env: Env, owned: bool, stale: Stale, sizes: seq<nat>)
    requires WellFormed(chain) && Valid(env) && IntactFrom(chain, env, 0)
    ensures var o := Answer(chain, env, owned, stale);
            var k := StopIndex(chain, env, 0, Start(owned));
            o.Delivered? ==>
              && Composed(chain, env, 0, k, Denote(chain, env, k))
              && o.delivery.contentLength == Denote(chain, env, k).contentLength
              && (Denote(chain, env, k).status >= 200 ==> o.delivery.status == Denote(chain, env, k).status)
              && (BackedIf(chain, env, k, o.delivery.contentLength) && o.delivery.contentLength > 0 ==>
                    && Concat(Pulled(o, stale)) == BodyOf(Denote(chain, env, k))
                    && (Pulled(o, stale) != [] && Drain(Entry(Pulled(o, stale), 0), sizes).ended ==>
                          Drain(Entry(Pulled(o, stale), 0), sizes).out == BodyOf(Denote(chain, env, k)))
                    && (Streamed(Denote(chain, env, k)) ==>
                          o.delivery.body.InPlace? && Held(o.books, o.delivery.body.home)))
  {
    var o := Answer(chain, env, owned, stale);
    if o.Delivered? {
      RunDenotes(chain, env, 0, Start(owned), owned);
      BackedExact(chain, env, owned, stale);
      var end := Run(chain, env, 0, Start(owned));
      Answers(chain, env, StopIndex(chain, env, 0, Start(owned)));
      BackedReads(env, end.loop, stale);
      if Pulled(o, stale) != [] {
        DrainedWhole(Pulled(o, stale), sizes);
      }
    }
  }

  // ---- Inputs on which the body is gone ----

  /** One byte, or a stream of one byte. */
  function OneByte(streamed: bool): Response {
    if streamed then Response(200, 1, [], []) else Response(200, 1, [7], [P.Buffer(0, 1)])
  }

  /** Everything is granted but the workspace for the copy; every program answers with one byte. */
  ghost function NoCopy(early: nat, streamed: bool): (env: Env)
    ensures Valid(env)
  {
    Smooth(true, early, true).(bodySpace := false, program := (i, post) => OneByte(streamed))
  }

  lemma OneProgram(env: Env, item: Item, stale: Stale)
    requires item == Program(0, 1000) && env.startSpace && env.connSpace && env.granted(0) && env.plus && !env.isPost
    requires env.program(0, None).status < 1000 && 0 < env.program(0, None).contentLength < env.early && !env.bodySpace
    ensures var o := Answer([item], env, false, stale);
            && o.Delivered? && o.books.held == {} && o.delivery.body == InPlace(env.program(0, None), InVm(Own(0)))
  {
    var chain := [item];
    var s := Start(false);
    var step := TakeTurn(chain, 0, env, s);
    assert step.Next?;
    assert Run(chain, env, 1, step.loop) == Break(step.loop);
    assert Run(chain, env, 0, s) == Break(step.loop);
  }

  /**
   Without workspace for the copy, a short body is delivered from a VM that is already
   given back, streamed or not.
   */
  lemma ReleasedUnread(early: nat, streamed: bool, stale: Stale)
    requires early > 1
    ensures var o := Answer([Program(0, 1000)], NoCopy(early, streamed), false, stale);
            o.Delivered? && o.books.held == {} && !Backed(o) && o.delivery.contentLength == 1
  {
    OneProgram(NoCopy(early, streamed), Program(0, 1000), stale);
  }

  /** So is the body of a program that ends the chain before the last one. */
  lemma InterruptedUnread(early: nat, streamed: bool, stale: Stale)
    ensures var o := Answer([Program(0, 200), Program(1, 1000)], NoCopy(early, streamed), false, stale);
            o.Delivered? && o.books.held == {} && !Backed(o) && o.delivery.contentLength == 1
  {
    var chain := [Program(0, 200), Program(1, 1000)];
    var env := NoCopy(early, streamed);
    var step := TakeTurn(chain, 0, env, Start(false));
    assert step.Break?;
    assert Run(chain, env, 0, Start(false)) == step;
  }
}
