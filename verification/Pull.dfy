/**
 Delivery of a buffered response body. Varnish pulls the body in pieces of its own
 choosing; the fetch processor copies from the result's buffers, consuming them in
 place, and keeps its position between pulls.
 */
module Pull {
  import opened GuestMemory

  function Concat(buffers: seq<Bytes>): Bytes {
    if buffers == [] then [] else buffers[0] + Concat(buffers[1..])
  }

  datatype Status = OK | END

  /** What is left of each buffer, and the buffer to continue with. */
  datatype Entry = Entry(buffers: seq<Bytes>, index: nat)

  function Remaining(e: Entry): Bytes {
    if e.index <= |e.buffers| then Concat(e.buffers[e.index..]) else []
  }

  datatype Pulled = Pulled(entry: Entry, out: Bytes, status: Status)

  /** One pull with room for `max` bytes. */
  function PullOnce(e: Entry, max: nat): Pulled
    requires e.index < |e.buffers|
    decreases |e.buffers| - e.index
  {
    var current := e.buffers[e.index];
    var len := if |current| > max then max else |current|;
    var rest := Entry(e.buffers[e.index := current[len..]], e.index);
    if len < |current| then Pulled(rest, current[..len], OK)
    else if e.index + 1 == |e.buffers| then Pulled(rest.(index := e.index + 1), current, END)
    else if max == len then Pulled(rest.(index := e.index + 1), current, OK)
    else
      var more := PullOnce(rest.(index := e.index + 1), max - len);
      more.(out := current + more.out)
  }

  /** The pull after `out` was handed out already. */
  function Prefixed(out: Bytes, p: Pulled): Pulled {
    p.(out := out + p.out)
  }

  /** One turn of the loop: what it takes from the current buffer, and what is left to do. */
  lemma PullTurn(e: Entry, max: nat, out: Bytes)
    requires e.index < |e.buffers|
    ensures var current := e.buffers[e.index];
            var len := if |current| > max then max else |current|;
            var rest := Entry(e.buffers[e.index := current[len..]], e.index);
            var next := rest.(index := e.index + 1);
            var taken := out + current[..len];
            Prefixed(out, PullOnce(e, max)) ==
              if len < |current| then Pulled(rest, taken, OK)
              else if e.index + 1 == |e.buffers| then Pulled(next, taken, END)
              else if max == len then Pulled(next, taken, OK)
              else Prefixed(taken, PullOnce(next, max - len))
  {
    var current := e.buffers[e.index];
    if |current| < max && e.index + 1 < |e.buffers| {
      var more := PullOnce(Entry(e.buffers[e.index := current[|current|..]], e.index + 1), max - |current|);
      assert out + (current + more.out) == (out + current) + more.out;
    }
    assert current[..|current|] == current;
  }

  class FetchProcessor {
    const contentLength: nat
    var buffers: seq<Bytes>
    var index: nat

    ghost function View(): Entry
      reads this
    {
      Entry(buffers, index)
    }

    constructor (contentLength: nat, buffers: seq<Bytes>)
      ensures this.contentLength == contentLength && View() == Entry(buffers, 0)
    {
      this.contentLength := contentLength;
      this.buffers, index := buffers, 0;
    }

    method FetchPull(max: nat) returns (out: Bytes, status: Status)
      requires contentLength == 0 || index < |buffers|
      modifies this
      ensures contentLength == 0 ==> out == [] && status == END && View() == old(View())
      ensures contentLength != 0 ==> Pulled(View(), out, status) == PullOnce(old(View()), max)
    {
      out := [];
      if contentLength == 0 {
        return out, END;
      }
      var room: nat := max;
      ghost var start := View();
      while true
        invariant index < |buffers|
        invariant PullOnce(start, max) == Prefixed(out, PullOnce(View(), room))
        decreases |buffers| - index
      {
        PullTurn(View(), room, out);
        var current := buffers[index];
        var len := if |current| > room then room else |current|;
        out := out + current[..len];
        buffers := buffers[index := current[len..]];
        if |buffers[index]| == 0 {
          index := index + 1;
          if index == |buffers| {
            return out, END;
          }
        }
        room := room - len;
        if room == 0 {
          return out, OK;
        }
      }
    }
  }

  // ---- One pull ----

  /**
   A pull hands out the next bytes in order and keeps the rest; an OK pull fills
   its room completely, and END comes exactly when the last buffer is drained.
   */
  lemma {:induction false} PullOnceCorrect(e: Entry, max: nat)
    requires e.index < |e.buffers|
    ensures var p := PullOnce(e, max);
            && p.out + Remaining(p.entry) == Remaining(e)
            && |p.out| <= max
            && |p.entry.buffers| == |e.buffers| && e.index <= p.entry.index <= |e.buffers|
            && (p.status == OK ==> |p.out| == max && p.entry.index < |e.buffers|)
            && (p.status == END <==> p.entry.index == |e.buffers|)
            && (p.status == END ==> Remaining(p.entry) == [])
    decreases |e.buffers| - e.index
  {
    var current := e.buffers[e.index];
    var len := if |current| > max then max else |current|;
    var rest := Entry(e.buffers[e.index := current[len..]], e.index);
    assert Remaining(e) == current + Concat(e.buffers[e.index + 1..]) by {
      assert e.buffers[e.index..][1..] == e.buffers[e.index + 1..];
    }
    assert rest.buffers[e.index + 1..] == e.buffers[e.index + 1..];
    assert rest.buffers[e.index..][1..] == e.buffers[e.index + 1..];
    if len < |current| {
      assert current[..len] + (current[len..] + Concat(e.buffers[e.index + 1..])) == Remaining(e);
    } else if e.index + 1 < |e.buffers| && max != len {
      var more := PullOnce(rest.(index := e.index + 1), max - len);
      PullOnceCorrect(rest.(index := e.index + 1), max - len);
      assert current + more.out + Remaining(more.entry) == Remaining(e);
    }
  }

  /** The buffers not yet reached are non-empty, as the guest memory gatherer delivers them. */
  ghost predicate NonEmpty(e: Entry) {
    forall i :: e.index <= i < |e.buffers| ==> e.buffers[i] != []
  }

  lemma {:induction false} PullOnceNonEmpty(e: Entry, max: nat)
    requires e.index < |e.buffers| && NonEmpty(e)
    ensures NonEmpty(PullOnce(e, max).entry)
    ensures PullOnce(e, max).status == OK ==> Remaining(PullOnce(e, max).entry) != []
    decreases |e.buffers| - e.index
  {
    var current := e.buffers[e.index];
    var len := if |current| > max then max else |current|;
    var rest := Entry(e.buffers[e.index := current[len..]], e.index);
    if !(len < |current|) && e.index + 1 < |e.buffers| && max != len {
      PullOnceNonEmpty(rest.(index := e.index + 1), max - len);
    }
  }

  // ---- Any sequence of pulls ----

  datatype Drained = Drained(entry: Entry, out: Bytes, ended: bool)

  /** Pulls with the given sizes, until END. */
  function Drain(e: Entry, sizes: seq<nat>): Drained
    requires e.index < |e.buffers|
    decreases |sizes|, 0
  {
    if sizes == [] then Drained(e, [], false) else DrainOn(PullOnce(e, sizes[0]), sizes[1..])
  }

  /** The pulls after one. */
  function DrainOn(p: Pulled, sizes: seq<nat>): Drained
    decreases |sizes|, 1
  {
    if p.status == END || p.entry.index >= |p.entry.buffers| then Drained(p.entry, p.out, true)
    else
      var more := Drain(p.entry, sizes);
      more.(out := p.out + more.out)
  }

  function Sum(sizes: seq<nat>): nat {
    if sizes == [] then 0 else sizes[0] + Sum(sizes[1..])
  }

  lemma Glue(all: Bytes, a: Bytes, mid: Bytes, b: Bytes, rest: Bytes)
    requires a + mid == all && b + rest == mid
    ensures a + b + rest == all && |all| == |a| + |mid|
  {
  }

  /** The pulls after one that handed out the beginning of `all`. */
  lemma {:induction false} DrainOnCorrect(p: Pulled, size: nat, all: Bytes, sizes: seq<nat>)
    requires p.out + Remaining(p.entry) == all && |p.out| <= size
    requires p.status == OK ==> |p.out| == size && p.entry.index < |p.entry.buffers|
    requires p.status == END ==> Remaining(p.entry) == []
    ensures var d := DrainOn(p, sizes);
            && d.out + Remaining(d.entry) == all
            && (d.ended ==> d.out == all)
            && (!d.ended ==> |d.out| == size + Sum(sizes))
            && (size + Sum(sizes) > |all| ==> d.ended)
    decreases |sizes|, 1
  {
    if p.status == OK {
      DrainCorrect(p.entry, sizes);
      var more := Drain(p.entry, sizes);
      Glue(all, p.out, Remaining(p.entry), more.out, Remaining(more.entry));
    } else {
      assert p.out + [] == p.out;
    }
  }

  /**
   For every sequence of pull sizes the pieces handed out, in order, are the
   beginning of the body; at END they are the whole body, and before it they fill
   every pull completely, so END is reached as soon as more was asked for than there is.
   */
  lemma {:induction false} DrainCorrect(e: Entry, sizes: seq<nat>)
    requires e.index < |e.buffers|
    ensures var d := Drain(e, sizes);
            && d.out + Remaining(d.entry) == Remaining(e)
            && (d.ended ==> d.out == Remaining(e))
            && (!d.ended ==> |d.out| == Sum(sizes))
            && (Sum(sizes) > |Remaining(e)| ==> d.ended)
    decreases |sizes|, 0
  {
    if sizes != [] {
      PullOnceCorrect(e, sizes[0]);
      DrainOnCorrect(PullOnce(e, sizes[0]), sizes[0], Remaining(e), sizes[1..]);
    } else {
      assert [] + Remaining(e) == Remaining(e);
    }
  }

  /** With non-empty buffers END is exact: it has come if and only if everything was asked for. */
  lemma {:induction false} DrainExact(e: Entry, sizes: seq<nat>)
    requires e.index < |e.buffers| && NonEmpty(e)
    ensures Drain(e, sizes).ended <==> Sum(sizes) >= |Remaining(e)|
    decreases |sizes|
  {
    if sizes == [] {
      assert e.buffers[e.index..][0] == e.buffers[e.index];
    } else {
      var p := PullOnce(e, sizes[0]);
      PullOnceCorrect(e, sizes[0]);
      PullOnceNonEmpty(e, sizes[0]);
      assert |Remaining(e)| == |p.out| + |Remaining(p.entry)|;
      if p.status == OK {
        DrainExact(p.entry, sizes[1..]);
      }
    }
  }

  // ---- Early release ----

  /** The copy of a short response into one workspace buffer, made so that the VM can be released. */
  method CopyToWorkspace(buffers: seq<Bytes>) returns (copy: Bytes)
    ensures copy == Concat(buffers)
  {
    copy := [];
    for i := 0 to |buffers|
      invariant copy + Concat(buffers[i..]) == Concat(buffers)
    {
      assert buffers[i..][1..] == buffers[i + 1..];
      assert copy + (buffers[i] + Concat(buffers[i + 1..])) == (copy + buffers[i]) + Concat(buffers[i + 1..]);
      copy := copy + buffers[i];
    }
    assert copy + [] == copy;
  }

  /** Whatever the pull sizes before and after, the delivered body is the same with and without the copy. */
  lemma EarlyReleaseSameBody(buffers: seq<Bytes>, sizes: seq<nat>, sizes2: seq<nat>)
    requires buffers != []
    requires Drain(Entry(buffers, 0), sizes).ended && Drain(Entry([Concat(buffers)], 0), sizes2).ended
    ensures Drain(Entry([Concat(buffers)], 0), sizes2).out == Drain(Entry(buffers, 0), sizes).out == Concat(buffers)
  {
    DrainCorrect(Entry(buffers, 0), sizes);
    DrainCorrect(Entry([Concat(buffers)], 0), sizes2);
    assert buffers[0..] == buffers;
    var one := [Concat(buffers)];
    assert one[0..] == one && Concat(one) == Concat(buffers) + Concat(one[1..]);
  }
}
