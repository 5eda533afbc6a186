/**
 The pseudo-random number generator handed to guests: a state of two 64-bit words that
 each call transforms linearly, and coin flips taken from its outputs bit by bit.
 Words are sequences of bits, the lowest first.
 */
module XorShift {

  type Word = w: seq<bool> | |w| == 64 witness seq(64, i => false)

  /** Bit `i`, which is zero outside of the word. */
  predicate Bit(w: Word, i: int) {
    0 <= i < 64 && w[i]
  }

  predicate Xor(a: bool, b: bool) {
    a != b
  }

  /** `w << k` for positive `k`, `w >> -k` for negative. */
  function Shift(w: Word, k: int): Word {
    seq(64, i => Bit(w, i - k))
  }

  function XorWords(a: Word, b: Word): Word {
    seq(64, i requires 0 <= i < 64 => Xor(a[i], b[i]))
  }

  /** The carry into bit `i` of a sum. */
  predicate Carry(a: Word, b: Word, i: nat)
    requires i <= 64
  {
    i > 0 &&
    (if a[i - 1] == b[i - 1] then a[i - 1] else Carry(a, b, i - 1))
  }

  /** Addition, wrapping around. */
  function Add(a: Word, b: Word): Word {
    seq(64, i requires 0 <= i < 64 => Xor(Xor(a[i], b[i]), Carry(a, b, i)))
  }

  function Pow2(n: nat): nat {
    if n == 0 then 1 else 2 * Pow2(n - 1)
  }

  /** The number that the lowest `n` bits stand for. */
  function Low(w: Word, n: nat): nat
    requires n <= 64
  {
    if n == 0 then 0 else Low(w, n - 1) + if w[n - 1] then Pow2(n - 1) else 0
  }

  /** Bit by bit, addition with carry is addition of the numbers; the last carry is what wraps around. */
  lemma {:induction false} AddIsSum(a: Word, b: Word, n: nat)
    requires n <= 64
    ensures Low(Add(a, b), n) + (if Carry(a, b, n) then Pow2(n) else 0) == Low(a, n) + Low(b, n)
  {
    if n > 0 {
      AddIsSum(a, b, n - 1);
    }
  }

  datatype State = State(s0: Word, s1: Word)

  /** The new word of a call, from the two words of the state. */
  function Feed(s0: Word, y: Word): Word {
    var x := XorWords(s0, Shift(s0, 23));
    XorWords(XorWords(XorWords(x, y), Shift(x, -17)), Shift(y, -26))
  }

  /** One call: the state shifts and gets a new word. */
  function Step(s: State): State {
    State(s.s1, Feed(s.s0, s.s1))
  }

  /** The number that the call returns. */
  function Output(s: State): Word {
    Add(Feed(s.s0, s.s1), s.s1)
  }

  // ---- The transformation can be undone ----

  function Mix(x: Word): Word {
    XorWords(x, Shift(x, 23))
  }

  function Unmix(y: Word): Word {
    XorWords(XorWords(y, Shift(y, 23)), Shift(y, 46))
  }

  function Fold(x: Word): Word {
    XorWords(x, Shift(x, -17))
  }

  function Unfold(y: Word): Word {
    XorWords(XorWords(XorWords(y, Shift(y, -17)), Shift(y, -34)), Shift(y, -51))
  }

  lemma MixBit(x: Word, i: int)
    requires i < 64
    ensures Bit(Mix(x), i) == Xor(Bit(x, i), Bit(x, i - 23))
  {
  }

  lemma UnmixBit(y: Word, i: int)
    requires i < 64
    ensures Bit(Unmix(y), i) == Xor(Xor(Bit(y, i), Bit(y, i - 23)), Bit(y, i - 46))
  {
  }

  lemma FoldBit(x: Word, i: int)
    requires i >= 0
    ensures Bit(Fold(x), i) == Xor(Bit(x, i), Bit(x, i + 17))
  {
  }

  lemma UnfoldBit(y: Word, i: int)
    requires i >= 0
    ensures Bit(Unfold(y), i) == Xor(Xor(Xor(Bit(y, i), Bit(y, i + 17)), Bit(y, i + 34)), Bit(y, i + 51))
  {
    if i < 64 {
      assert Unfold(y)[i] == Xor(Xor(Xor(y[i], Shift(y, -17)[i]), Shift(y, -34)[i]), Shift(y, -51)[i]);
    }
  }

  lemma UnmixMix(x: Word)
    ensures Unmix(Mix(x)) == x
  {
    forall i | 0 <= i < 64
      ensures Bit(Unmix(Mix(x)), i) == Bit(x, i)
    {
      UnmixBit(Mix(x), i);
      MixBit(x, i);
      MixBit(x, i - 23);
      MixBit(x, i - 46);
    }
    SameBits(Unmix(Mix(x)), x);
  }

  lemma MixUnmix(y: Word)
    ensures Mix(Unmix(y)) == y
  {
    forall i | 0 <= i < 64
      ensures Bit(Mix(Unmix(y)), i) == Bit(y, i)
    {
      MixBit(Unmix(y), i);
      UnmixBit(y, i);
      UnmixBit(y, i - 23);
    }
    SameBits(Mix(Unmix(y)), y);
  }

  lemma UnfoldFold(x: Word)
    ensures Unfold(Fold(x)) == x
  {
    forall i | 0 <= i < 64
      ensures Bit(Unfold(Fold(x)), i) == Bit(x, i)
    {
      UnfoldBit(Fold(x), i);
      FoldBit(x, i);
      FoldBit(x, i + 17);
      FoldBit(x, i + 34);
      FoldBit(x, i + 51);
    }
    SameBits(Unfold(Fold(x)), x);
  }

  lemma FoldUnfold(y: Word)
    ensures Fold(Unfold(y)) == y
  {
    forall i | 0 <= i < 64
      ensures Bit(Fold(Unfold(y)), i) == Bit(y, i)
    {
      FoldBit(Unfold(y), i);
      UnfoldBit(y, i);
      UnfoldBit(y, i + 17);
    }
    SameBits(Fold(Unfold(y)), y);
  }

  lemma SameBits(a: Word, b: Word)
    requires forall i :: 0 <= i < 64 ==> Bit(a, i) == Bit(b, i)
    ensures a == b
  {
    forall i | 0 <= i < 64
      ensures a[i] == b[i]
    {
      assert Bit(a, i) == Bit(b, i);
    }
  }

  /** What `y` contributes to the new word. */
  function Mask(y: Word): Word {
    XorWords(y, Shift(y, -26))
  }

  lemma FeedForm(x: Word, y: Word)
    ensures Feed(x, y) == XorWords(Fold(Mix(x)), Mask(y))
  {
  }

  lemma XorTwice(a: Word, m: Word)
    ensures XorWords(XorWords(a, m), m) == a
  {
  }

  /** The word that `Feed` was given beside `y`. */
  function Recover(z: Word, y: Word): Word {
    Unmix(Unfold(XorWords(z, Mask(y))))
  }

  lemma RecoverFeed(x: Word, y: Word)
    ensures Recover(Feed(x, y), y) == x
  {
    FeedForm(x, y);
    XorTwice(Fold(Mix(x)), Mask(y));
    UnfoldFold(Mix(x));
    UnmixMix(x);
  }

  lemma FeedRecover(z: Word, y: Word)
    ensures Feed(Recover(z, y), y) == z
  {
    var t := XorWords(z, Mask(y));
    FeedForm(Recover(z, y), y);
    MixUnmix(Unfold(t));
    FoldUnfold(t);
    XorTwice(z, Mask(y));
  }

  /** The state before the call that led to `s`. */
  function Back(s: State): State {
    State(Recover(s.s1, s.s0), s.s0)
  }

  /** Each state has exactly one predecessor. */
  lemma BackStep(s: State)
    ensures Back(Step(s)) == s
  {
    RecoverFeed(s.s0, s.s1);
  }

  lemma StepBack(s: State)
    ensures Step(Back(s)) == s
  {
    FeedRecover(s.s1, s.s0);
  }

  // ---- Any number of calls ----

  function Iterate<T>(f: T -> T, s: T, n: nat): T {
    if n == 0 then s else f(Iterate(f, s, n - 1))
  }

  ghost predicate Undoes<T(!new)>(f: T -> T, g: T -> T) {
    forall x :: g(f(x)) == x
  }

  lemma {:induction false} IterateInjective<T(!new)>(f: T -> T, g: T -> T, s: T, t: T, n: nat)
    requires Undoes(f, g) && Iterate(f, s, n) == Iterate(f, t, n)
    ensures s == t
  {
    if n > 0 {
      assert g(f(Iterate(f, s, n - 1))) == g(f(Iterate(f, t, n - 1)));
      IterateInjective(f, g, s, t, n - 1);
    }
  }

  lemma {:induction false} IterateFixed<T(!new)>(f: T -> T, s: T, n: nat)
    requires f(s) == s
    ensures Iterate(f, s, n) == s
  {
    if n > 0 {
      IterateFixed(f, s, n - 1);
    }
  }

  /** The state after `n` calls. */
  function After(s: State, n: nat): State {
    Iterate(Step, s, n)
  }

  lemma BackUndoes()
    ensures Undoes(Step, Back)
  {
    forall s: State
      ensures Back(Step(s)) == s
    {
      BackStep(s);
    }
  }

  const NOTHING: Word := seq(64, i => false)
  const ZERO := State(NOTHING, NOTHING)

  lemma XorNothing()
    ensures XorWords(NOTHING, NOTHING) == NOTHING
  {
    SameBits(XorWords(NOTHING, NOTHING), NOTHING);
  }

  lemma NothingBit(i: int)
    ensures !Bit(NOTHING, i)
  {
  }

  lemma ShiftNothing(k: int)
    ensures Shift(NOTHING, k) == NOTHING
  {
    forall i | 0 <= i < 64
      ensures Bit(Shift(NOTHING, k), i) == Bit(NOTHING, i)
    {
      NothingBit(i);
      NothingBit(i - k);
    }
    SameBits(Shift(NOTHING, k), NOTHING);
  }

  lemma ZeroFixed()
    ensures Step(ZERO) == ZERO
  {
    ShiftNothing(23);
    ShiftNothing(-17);
    ShiftNothing(-26);
    XorNothing();
  }

  /** Different seeds stay different for any number of calls. */
  lemma AfterInjective(s: State, t: State, n: nat)
    requires After(s, n) == After(t, n)
    ensures s == t
  {
    BackUndoes();
    IterateInjective(Step, Back, s, t, n);
  }

  /** The state is all zero after some number of calls if and only if the seed was. */
  lemma ZeroExact(s: State, n: nat)
    ensures After(s, n) == ZERO <==> s == ZERO
  {
    ZeroFixed();
    IterateFixed(Step, ZERO, n);
    if After(s, n) == ZERO {
      AfterInjective(s, ZERO, n);
    }
  }

  // ---- Coin flips ----

  /** Where the flip number `k` of a generator that is only used for flips comes from: a word, and a bit of it. */
  function WordOf(k: nat): nat {
    k / 64
  }

  function BitOf(k: nat): (i: nat)
    ensures i < 64
  {
    63 - k % 64
  }

  /** Every flip uses the next lower bit of the latest word. */
  lemma FlipPosition(k: nat, drawn: nat, i: nat)
    requires i < 64 && k + i + 1 == 64 * drawn
    ensures WordOf(k) == drawn - 1 && BitOf(k) == i
  {
    assert k == 64 * (drawn - 1) + (63 - i);
  }

  /** A generator with the bits of its latest word that are not used up. */
  datatype Coins<S, W> = Coins(state: S, counter: nat, word: W)

  /** Takes the next lower bit, of a new word if there is none left. */
  function Flip<S, W>(c: Coins<S, W>, step: S -> S, output: S -> W): Coins<S, W> {
    if c.counter == 0 then Coins(step(c.state), 63, output(c.state)) else c.(counter := c.counter - 1)
  }

  function Flips<S, W>(c: Coins<S, W>, step: S -> S, output: S -> W, k: nat): Coins<S, W> {
    if k == 0 then c else Flip(Flips(c, step, output, k - 1), step, output)
  }

  /** `k` flips from this seed have drawn so many words. */
  ghost predicate Flipped<S, W>(c: Coins<S, W>, step: S -> S, output: S -> W, seed: S, k: nat, drawn: nat) {
    && c.counter < 64 && k + c.counter == 64 * drawn
    && c.state == Iterate(step, seed, drawn)
    && (drawn > 0 ==> c.word == output(Iterate(step, seed, drawn - 1)))
  }

  lemma FlipKeeps<S, W>(c: Coins<S, W>, step: S -> S, output: S -> W, seed: S, k: nat, drawn: nat)
    requires Flipped(c, step, output, seed, k, drawn)
    ensures Flipped(Flip(c, step, output), step, output, seed, k + 1, if c.counter == 0 then drawn + 1 else drawn)
  {
  }

  lemma {:induction false} FlipsDraw<S, W>(c: Coins<S, W>, step: S -> S, output: S -> W, k: nat) returns (drawn: nat)
    requires c.counter == 0
    ensures Flipped(Flips(c, step, output, k), step, output, c.state, k, drawn)
  {
    drawn := 0;
    if k > 0 {
      var before := FlipsDraw(c, step, output, k - 1);
      var coins := Flips(c, step, output, k - 1);
      FlipKeeps(coins, step, output, c.state, k - 1, before);
      drawn := if coins.counter == 0 then before + 1 else before;
    }
  }

  /** The flip number `k` is a certain bit of a certain output, highest bit first. */
  lemma FlipOrigin<S, W>(c: Coins<S, W>, step: S -> S, output: S -> W, k: nat)
    requires c.counter == 0
    ensures Flips(c, step, output, k + 1).word == output(Iterate(step, c.state, WordOf(k)))
    ensures Flips(c, step, output, k + 1).counter == BitOf(k)
  {
    var drawn := FlipsDraw(c, step, output, k + 1);
    FlipPosition(k, drawn, Flips(c, step, output, k + 1).counter);
  }

  class XorPrng {
    var state: State
    var counter: nat
    var word: Word

    ghost function View(): Coins<State, Word>
      reads this
    {
      Coins(state, counter, word)
    }

    constructor (seed: State)
      ensures state == seed && counter == 0
    {
      state, counter, word := seed, 0, NOTHING;
    }

    method RandU64() returns (r: Word)
      modifies this`state
      ensures state == Step(old(state)) && r == Output(old(state))
    {
      var x, y := state.s0, state.s1;
      state := state.(s0 := y);
      x := XorWords(x, Shift(x, 23));
      state := state.(s1 := XorWords(XorWords(XorWords(x, y), Shift(x, -17)), Shift(y, -26)));
      return Add(state.s1, y);
    }

    method RandBool() returns (r: bool)
      modifies this
      ensures View() == Flip(old(View()), Step, Output)
      ensures r == Bit(word, counter)
    {
      if counter == 0 {
        counter := 64;
        word := RandU64();
      }
      counter := counter - 1;
      return Bit(word, counter);
    }
  }

  /** For the generator itself: flip number `k` from a seed. */
  lemma FlipOfSeed(seed: State, word: Word, k: nat)
    ensures var c := Flips(Coins(seed, 0, word), Step, Output, k + 1);
            Bit(c.word, c.counter) == Bit(Output(After(seed, WordOf(k))), BitOf(k))
  {
    FlipOrigin(Coins(seed, 0, word), Step, Output, k);
  }
}
