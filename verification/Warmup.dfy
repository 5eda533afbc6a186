/**
 Warming up a program before it takes requests: either an exact number of requests, or
 as many as it takes until the time of a request has not improved for a while. A
 request that fails ends the warmup. How long each request takes is a parameter.
 */
module Warmup {
  import opened Options

  // The count is an unsigned 16-bit setting, which the loop reads as an int. Nothing here depends on
  // its sign.

  /** The time of request `i` in nanoseconds, or none if it fails. */
  type Requests = nat -> Option<nat>

  const UINT64_MAX: nat := 0xFFFF_FFFF_FFFF_FFFF

  datatype Progress = Progress(best: nat, bailout: int)

  /** The heuristic's variables after one more successful request. */
  function Update(n: int, p: Progress, sample: nat): Progress {
    if sample < p.best then Progress(sample, n) else p.(bailout := p.bailout - 1)
  }

  /** The heuristic's variables before request `i`. */
  function At(n: int, requests: Requests, i: nat): Progress {
    if i == 0 then Progress(UINT64_MAX, n)
    else
      var p := At(n, requests, i - 1);
      if requests(i - 1).None? then p else Update(n, p, requests(i - 1).value)
  }

  /** The loop ends with request `i`, if it gets there. */
  predicate EndsAt(n: int, exact: bool, requests: Requests, i: nat) {
    || requests(i).None?
    || (if exact then i + 1 >= n
        else requests(i).value >= At(n, requests, i).best && At(n, requests, i).bailout == 1)
  }

  ghost predicate FirstEnd(n: int, exact: bool, requests: Requests, k: nat) {
    EndsAt(n, exact, requests, k) && forall i :: 0 <= i < k ==> !EndsAt(n, exact, requests, i)
  }

  /**
   The loop itself. With no requests configured the heuristic may not end, which
   `EndsExact` makes precise.
   */
  method WarmUp(n: int, exact: bool, requests: Requests) returns (last: nat)
    requires exact || n >= 1
    ensures FirstEnd(n, exact, requests, last)
  {
    var bailout := n;
    var best := UINT64_MAX;
    var i := 0;
    while true
      invariant forall j :: 0 <= j < i ==> !EndsAt(n, exact, requests, j)
      invariant exact || At(n, requests, i) == Progress(best, bailout)
      invariant exact || 1 <= bailout <= n
      decreases if exact then 0 else best, if exact then (if i < n then n - i else 0) else bailout
    {
      var time := requests(i);
      if time.None? {
        return i;
      }
      if exact {
        if i + 1 >= n {
          return i;
        }
      } else {
        if time.value < best {
          best := time.value;
          bailout := n;
        } else {
          bailout := bailout - 1;
          if bailout == 0 {
            return i;
          }
        }
      }
      i := i + 1;
    }
  }

  // ---- When the warmup ends ----

  ghost predicate Terminates(n: int, exact: bool, requests: Requests) {
    exists k :: EndsAt(n, exact, requests, k)
  }

  lemma {:induction false} Ends(n: int, requests: Requests, i: nat) returns (k: nat)
    requires 1 <= At(n, requests, i).bailout <= n
    ensures EndsAt(n, false, requests, k)
    decreases At(n, requests, i).best, At(n, requests, i).bailout
  {
    k := i;
    if !EndsAt(n, false, requests, i) {
      k := Ends(n, requests, i + 1);
    }
  }

  function Constant(i: nat): Option<nat> {
    Some(0)
  }

  lemma {:induction false} NoneLeft(n: int, i: nat)
    requires n <= 0
    ensures At(n, Constant, i).bailout <= 0
  {
    if i > 0 {
      NoneLeft(n, i - 1);
    }
  }

  /** Warming up ends for every program if and only if the count is exact or at least one. */
  lemma EndsExact(n: int, exact: bool)
    ensures (forall requests: Requests :: Terminates(n, exact, requests)) <==> exact || n >= 1
  {
    if exact {
      forall requests: Requests
        ensures Terminates(n, exact, requests)
      {
        assert EndsAt(n, exact, requests, if n < 0 then 0 else n);
      }
    } else if n >= 1 {
      forall requests: Requests
        ensures Terminates(n, exact, requests)
      {
        var k := Ends(n, requests, 0);
      }
    } else {
      forall k
        ensures !EndsAt(n, exact, Constant, k)
      {
        NoneLeft(n, k);
      }
      assert !Terminates(n, exact, Constant);
    }
  }

  // ---- What it has done then ----

  /** An exact warmup makes exactly the configured number of requests, one if none is configured, unless one fails. */
  lemma ExactCount(n: int, requests: Requests, k: nat)
    requires FirstEnd(n, true, requests, k)
    ensures requests(k).Some? ==> k + 1 == if n <= 0 then 1 else n
    ensures requests(k).None? ==> k == 0 || k < n
  {
    if k > 0 {
      assert !EndsAt(n, true, requests, k - 1);
    }
  }

  /** The last `n - bailout` requests before `i` were no improvement on the best time, which the one before them set. */
  ghost predicate Window(n: nat, requests: Requests, i: nat) {
    var p := At(n, requests, i);
    var since := n - p.bailout;
    && 0 <= since <= i
    && (forall j :: i - since <= j < i ==> requests(j).Some? && requests(j).value >= p.best)
    && (forall j :: 0 <= j < i - since ==> requests(j).Some? && requests(j).value >= p.best)
    && (since < i ==> requests(i - since - 1) == Some(p.best))
    && (since < i ==> forall j :: 0 <= j < i - since - 1 ==> requests(j).value > p.best)
    && (since == i ==> p.best == UINT64_MAX)
  }

  lemma {:induction false} WindowHolds(n: nat, requests: Requests, i: nat)
    requires forall j :: 0 <= j < i ==> requests(j).Some?
    ensures Window(n, requests, i)
  {
    if i > 0 {
      WindowHolds(n, requests, i - 1);
    }
  }

  /**
   The heuristic ends, unless a request fails, right after the `n`-th request in a row
   that did not improve on the best time, which is the least of all.
   */
  lemma HeuristicMeaning(n: nat, requests: Requests, k: nat)
    requires n >= 1 && FirstEnd(n, false, requests, k) && requests(k).Some?
    ensures k + 1 >= n
    ensures var best := At(n, requests, k).best;
            && (forall j :: 0 <= j <= k ==> requests(j).Some? && requests(j).value >= best)
            && (k >= n ==> requests(k - n) == Some(best))
            && (k >= n ==> forall j :: 0 <= j < k - n ==> requests(j).value > best)
            && (k + 1 == n ==> best == UINT64_MAX)
  {
    forall j | 0 <= j < k
      ensures requests(j).Some?
    {
      assert !EndsAt(n, false, requests, j);
    }
    WindowHolds(n, requests, k);
  }
}
