/**
 Linear feedback shift registers, over any word type with an exclusive-or. A word
 can be fed into the register bit by bit, or combined with it whole and then
 clocked; for a linear register the two agree.
 */
module Lfsr {

  /** `low` keeps only the lowest bit of a word, `down` shifts it by one, `clock` is one step of the register. */
  datatype Register<!T> = Register(xor: (T, T) -> T, low: T -> T, down: T -> T, clock: T -> T, zero: T)

  /** The register after the `n` low bits of `w` were fed in, lowest first. */
  function Feed<T>(r: Register<T>, c: T, w: T, n: nat): T
    decreases n
  {
    if n == 0 then c else Feed(r, r.clock(r.xor(c, r.low(w))), r.down(w), n - 1)
  }

  /** The register after `n` clocks without input. */
  function Clocks<T>(r: Register<T>, c: T, n: nat): T
    decreases n
  {
    if n == 0 then c else Clocks(r, r.clock(c), n - 1)
  }

  function Down<T>(r: Register<T>, w: T, n: nat): T
    decreases n
  {
    if n == 0 then w else Down(r, r.down(w), n - 1)
  }

  /** The `n` low bits of the word are clear. */
  predicate LowClear<T(==)>(r: Register<T>, w: T, n: nat)
    decreases n
  {
    n == 0 || (r.low(w) == r.zero && LowClear(r, r.down(w), n - 1))
  }

  predicate LinearAt<T(==)>(r: Register<T>, a: T, b: T) {
    r.clock(r.xor(a, b)) == r.xor(r.clock(a), r.clock(b))
  }

  /** A word whose low bit is clear is only shifted. */
  predicate ShiftsAt<T(==)>(r: Register<T>, w: T) {
    r.low(w) == r.zero ==> r.clock(w) == r.down(w)
  }

  predicate RecombinesAt<T(==)>(r: Register<T>, c: T, w: T) {
    r.xor(c, w) == r.xor(r.xor(c, r.low(w)), r.xor(w, r.low(w)))
  }

  predicate RestClearAt<T(==)>(r: Register<T>, w: T) {
    r.low(r.xor(w, r.low(w))) == r.zero
  }

  predicate RestMovesAt<T(==)>(r: Register<T>, w: T) {
    r.down(r.xor(w, r.low(w))) == r.down(w)
  }

  /** A word is its low bit combined with the rest, and the rest has its low bit clear. */
  predicate SplitsAt<T(==)>(r: Register<T>, c: T, w: T) {
    RecombinesAt(r, c, w) && RestClearAt(r, w) && RestMovesAt(r, w)
  }

  ghost predicate Laws<T(!new)>(r: Register<T>) {
    && (forall a, b :: LinearAt(r, a, b))
    && (forall w :: ShiftsAt(r, w))
    && (forall c, w :: SplitsAt(r, c, w))
  }

  lemma {:induction false} ClocksLinear<T(!new)>(r: Register<T>, a: T, b: T, n: nat)
    requires Laws(r)
    ensures Clocks(r, r.xor(a, b), n) == r.xor(Clocks(r, a, n), Clocks(r, b, n))
    decreases n
  {
    if n > 0 {
      assert LinearAt(r, a, b);
      ClocksLinear(r, r.clock(a), r.clock(b), n - 1);
    }
  }

  lemma {:induction false} ClocksSplit<T>(r: Register<T>, c: T, m: nat, n: nat)
    ensures Clocks(r, c, m + n) == Clocks(r, Clocks(r, c, m), n)
    decreases m
  {
    if m > 0 {
      ClocksSplit(r, r.clock(c), m - 1, n);
    }
  }

  lemma {:induction false} ClocksShift<T(!new)>(r: Register<T>, w: T, n: nat)
    requires Laws(r) && LowClear(r, w, n)
    ensures Clocks(r, w, n) == Down(r, w, n)
    decreases n
  {
    if n > 0 {
      assert ShiftsAt(r, w);
      ClocksShift(r, r.down(w), n - 1);
    }
  }

  /** Combining a whole word and clocking `n` times feeds its `n` low bits; the remaining bits are still to come. */
  lemma {:induction false} ClocksFeed<T(!new)>(r: Register<T>, c: T, w: T, n: nat)
    requires Laws(r)
    ensures Clocks(r, r.xor(c, w), n) == r.xor(Feed(r, c, w, n), Down(r, w, n))
    decreases n
  {
    if n > 0 {
      var a, rest := r.xor(c, r.low(w)), r.xor(w, r.low(w));
      assert SplitsAt(r, c, w) && LinearAt(r, a, rest) && ShiftsAt(r, rest);
      ClocksFeed(r, r.clock(a), r.down(w), n - 1);
    }
  }

  /** A word made of `n` low bits and a rest: the low bits are fed, the rest moves down. */
  lemma PeelLow<T(!new)>(r: Register<T>, c: T, w: T, low: T, rest: T, n: nat)
    requires Laws(r)
    requires r.xor(c, w) == r.xor(r.xor(c, low), rest) && LowClear(r, rest, n)
    requires Down(r, low, n) == r.zero && r.xor(Feed(r, c, low, n), r.zero) == Feed(r, c, low, n)
    ensures Clocks(r, r.xor(c, w), n) == r.xor(Feed(r, c, low, n), Down(r, rest, n))
  {
    ClocksLinear(r, r.xor(c, low), rest, n);
    ClocksFeed(r, c, low, n);
    ClocksShift(r, rest, n);
  }
}
