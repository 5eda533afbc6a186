/**
 CRC-32C. The reference is a shift register clocked once per message bit, least
 significant bit first, with the reflected form of the generator polynomial
 0x1EDC6F41. The code uses the CPU's 8-, 16- and 32-bit CRC instructions, chosen by
 the alignment of the data, and a table-driven form for arbitrary polynomials.
 */
module Crc32c {
  import L = Lfsr

  /** The generator polynomial 0x1EDC6F41 with its bits in reverse order. */
  const POLY: bv32 := 0x82F6_3B78

  /** Bit reversal by swapping halves of halves. */
  function Reverse(w: bv32): bv32 {
    var a := (w >> 16) | (w << 16);
    var b := ((a >> 8) & 0x00FF_00FF) | ((a & 0x00FF_00FF) << 8);
    var c := ((b >> 4) & 0x0F0F_0F0F) | ((b & 0x0F0F_0F0F) << 4);
    var d := ((c >> 2) & 0x3333_3333) | ((c & 0x3333_3333) << 2);
    ((d >> 1) & 0x5555_5555) | ((d & 0x5555_5555) << 1)
  }

  lemma PolyIsReflected()
    ensures POLY == Reverse(0x1EDC_6F41)
  {
  }

  const ALL_ONES: bv32 := 0xFFFF_FFFF

  function Clock(poly: bv32, c: bv32): bv32 {
    (c >> 1) ^ (poly & (0 - (c & 1)))
  }

  function Xor(a: bv32, b: bv32): bv32 {
    a ^ b
  }

  function LowBit(w: bv32): bv32 {
    w & 1
  }

  function Half(w: bv32): bv32 {
    w >> 1
  }

  function Crc(poly: bv32): L.Register<bv32> {
    L.Register(Xor, LowBit, Half, (c: bv32) => Clock(poly, c), 0)
  }

  function FeedByte(r: L.Register<bv32>, c: bv32, b: bv32): bv32 {
    L.Feed(r, c, b, 8)
  }

  /** The reference: the bits of each byte in turn. */
  function Serial(r: L.Register<bv32>, c: bv32, data: seq<bv8>): bv32 {
    if data == [] then c
    else FeedByte(r, Serial(r, c, data[..|data| - 1]), data[|data| - 1] as bv32)
  }

  // ---- The register obeys the laws ----

  lemma ClockArithmetic(poly: bv32, a: bv32, b: bv32)
    ensures ((a ^ b) >> 1) ^ (poly & (0 - ((a ^ b) & 1))) ==
            ((a >> 1) ^ (poly & (0 - (a & 1)))) ^ ((b >> 1) ^ (poly & (0 - (b & 1))))
  {
  }

  lemma ClockLinear(poly: bv32, a: bv32, b: bv32)
    ensures Clock(poly, a ^ b) == Clock(poly, a) ^ Clock(poly, b)
  {
    ClockArithmetic(poly, a, b);
  }

  lemma ClockShifts(poly: bv32, w: bv32)
    ensures w & 1 == 0 ==> Clock(poly, w) == w >> 1
  {
  }

  lemma BitCancels(c: bv32, w: bv32)
    ensures c ^ w == (c ^ (w & 1)) ^ (w ^ (w & 1))
  {
  }

  lemma BitCleared(w: bv32)
    ensures (w ^ (w & 1)) & 1 == 0
  {
  }

  lemma BitGone(w: bv32)
    ensures (w ^ (w & 1)) >> 1 == w >> 1
  {
  }

  lemma CrcLinear(poly: bv32, a: bv32, b: bv32)
    ensures L.LinearAt(Crc(poly), a, b)
  {
    ClockLinear(poly, a, b);
  }

  lemma CrcShifts(poly: bv32, w: bv32)
    ensures L.ShiftsAt(Crc(poly), w)
  {
    ClockShifts(poly, w);
  }

  lemma CrcRecombines(poly: bv32, c: bv32, w: bv32)
    ensures L.RecombinesAt(Crc(poly), c, w)
  {
    BitCancels(c, w);
  }

  lemma CrcRestClear(poly: bv32, w: bv32)
    ensures L.RestClearAt(Crc(poly), w)
  {
    BitCleared(w);
  }

  lemma CrcRestMoves(poly: bv32, w: bv32)
    ensures L.RestMovesAt(Crc(poly), w)
  {
    BitGone(w);
  }

  lemma CrcSplits(poly: bv32, c: bv32, w: bv32)
    ensures L.SplitsAt(Crc(poly), c, w)
  {
    CrcRecombines(poly, c, w);
    CrcRestClear(poly, w);
    CrcRestMoves(poly, w);
  }

  lemma CrcLaws(poly: bv32)
    ensures L.Laws(Crc(poly))
  {
    forall a: bv32, b: bv32 ensures L.LinearAt(Crc(poly), a, b) {
      CrcLinear(poly, a, b);
    }
    forall w: bv32 ensures L.ShiftsAt(Crc(poly), w) {
      CrcShifts(poly, w);
    }
    forall c: bv32, w: bv32 ensures L.SplitsAt(Crc(poly), c, w) {
      CrcSplits(poly, c, w);
    }
  }

  // ---- Bytes of a word ----

  lemma ShiftTwice(w: bv32)
    ensures w >> 1 >> 1 == w >> 2 && w >> 2 >> 1 == w >> 3 && w >> 3 >> 1 == w >> 4 && w >> 4 >> 1 == w >> 5
    ensures w >> 5 >> 1 == w >> 6 && w >> 6 >> 1 == w >> 7 && w >> 7 >> 1 == w >> 8
  {
  }

  lemma Down8(poly: bv32, w: bv32)
    ensures L.Down(Crc(poly), w, 8) == w >> 8
  {
    ShiftTwice(w);
    var r := Crc(poly);
    assert L.Down(r, w >> 7, 1) == w >> 8;
    assert L.Down(r, w >> 6, 2) == w >> 8;
    assert L.Down(r, w >> 5, 3) == w >> 8;
    assert L.Down(r, w >> 4, 4) == w >> 8;
    assert L.Down(r, w >> 3, 5) == w >> 8;
    assert L.Down(r, w >> 2, 6) == w >> 8;
    assert L.Down(r, w >> 1, 7) == w >> 8;
  }

  lemma ClearBits(w: bv32)
    requires w & 0xFF == 0
    ensures w & 1 == 0 && (w >> 1) & 1 == 0 && (w >> 2) & 1 == 0 && (w >> 3) & 1 == 0
    ensures (w >> 4) & 1 == 0 && (w >> 5) & 1 == 0 && (w >> 6) & 1 == 0 && (w >> 7) & 1 == 0
  {
  }

  lemma Clear8(poly: bv32, w: bv32)
    requires w & 0xFF == 0
    ensures L.LowClear(Crc(poly), w, 8)
  {
    ShiftTwice(w);
    ClearBits(w);
    var r := Crc(poly);
    assert L.LowClear(r, w >> 7, 1);
    assert L.LowClear(r, w >> 6, 2);
    assert L.LowClear(r, w >> 5, 3);
    assert L.LowClear(r, w >> 4, 4);
    assert L.LowClear(r, w >> 3, 5);
    assert L.LowClear(r, w >> 2, 6);
    assert L.LowClear(r, w >> 1, 7);
  }

  lemma ByteCancels(c: bv32, w: bv32)
    ensures c ^ w == (c ^ (w & 0xFF)) ^ (w ^ (w & 0xFF))
    ensures (w ^ (w & 0xFF)) & 0xFF == 0
    ensures (w ^ (w & 0xFF)) >> 8 == w >> 8
    ensures (w & 0xFF) >> 8 == 0
  {
  }

  lemma XorZero(c: bv32)
    ensures Xor(c, 0) == c
  {
  }

  lemma LowByteGone(poly: bv32, w: bv32)
    ensures L.Down(Crc(poly), w & 0xFF, 8) == 0
  {
    ByteCancels(0, w);
    Down8(poly, w & 0xFF);
  }

  lemma RestMoves(poly: bv32, w: bv32)
    ensures L.Down(Crc(poly), w ^ (w & 0xFF), 8) == w >> 8
    ensures L.LowClear(Crc(poly), w ^ (w & 0xFF), 8)
  {
    ByteCancels(0, w);
    Down8(poly, w ^ (w & 0xFF));
    Clear8(poly, w ^ (w & 0xFF));
  }

  /** Eight clocks of a combined word: its low byte is consumed bit by bit, the rest moves down. */
  predicate PeelsAt(r: L.Register<bv32>, c: bv32, w: bv32) {
    L.Clocks(r, Xor(c, w), 8) == Xor(FeedByte(r, c, w & 0xFF), w >> 8)
  }

  ghost predicate Bytewise(r: L.Register<bv32>) {
    forall c: bv32, w: bv32 :: PeelsAt(r, c, w)
  }

  lemma XorSplits(poly: bv32, c: bv32, w: bv32)
    ensures Crc(poly).xor(c, w) == Crc(poly).xor(Crc(poly).xor(c, w & 0xFF), w ^ (w & 0xFF))
  {
    ByteCancels(c, w);
  }

  lemma CrcPeels(poly: bv32, c: bv32, w: bv32)
    ensures PeelsAt(Crc(poly), c, w)
  {
    var r := Crc(poly);
    var low, rest := w & 0xFF, w ^ (w & 0xFF);
    CrcLaws(poly);
    LowByteGone(poly, w);
    RestMoves(poly, w);
    XorZero(L.Feed(r, c, low, 8));
    XorSplits(poly, c, w);
    L.PeelLow(r, c, w, low, rest, 8);
  }

  lemma CrcBytewise(poly: bv32)
    ensures Bytewise(Crc(poly))
  {
    forall c: bv32, w: bv32 ensures PeelsAt(Crc(poly), c, w) {
      CrcPeels(poly, c, w);
    }
  }

  // ---- The CPU instructions ----

  /** Combine the operand with the register, then one clock per operand bit. */
  function Instruction(r: L.Register<bv32>, c: bv32, w: bv32, bits: nat): bv32 {
    L.Clocks(r, Xor(c, w), bits)
  }

  /** Little-endian loads. */
  function Load16(b0: bv8, b1: bv8): bv32 {
    (b0 as bv32) | ((b1 as bv32) << 8)
  }

  function Load32(b0: bv8, b1: bv8, b2: bv8, b3: bv8): bv32 {
    (b0 as bv32) | ((b1 as bv32) << 8) | ((b2 as bv32) << 16) | ((b3 as bv32) << 24)
  }

  lemma LoadedByte(b: bv8)
    ensures (b as bv32) & 0xFF == b as bv32 && (b as bv32) >> 8 == 0
  {
  }

  lemma Loaded16(b0: bv8, b1: bv8)
    ensures Load16(b0, b1) & 0xFF == b0 as bv32 && Load16(b0, b1) >> 8 == b1 as bv32
  {
  }

  lemma Loaded32(b0: bv8, b1: bv8, b2: bv8, b3: bv8)
    ensures var w := Load32(b0, b1, b2, b3);
            && w & 0xFF == b0 as bv32
            && (w >> 8) & 0xFF == b1 as bv32
            && (w >> 8 >> 8) == Load16(b2, b3)
  {
  }

  lemma ByteInstruction(r: L.Register<bv32>, c: bv32, b: bv8)
    requires Bytewise(r)
    ensures Instruction(r, c, b as bv32, 8) == FeedByte(r, c, b as bv32)
  {
    assert PeelsAt(r, c, b as bv32);
    LoadedByte(b);
    XorZero(FeedByte(r, c, b as bv32));
  }

  /** The first byte of a longer operand is fed, the rest of the operand remains. */
  lemma PeelInstruction(r: L.Register<bv32>, c: bv32, w: bv32, bits: nat)
    requires Bytewise(r)
    ensures Instruction(r, c, w, 8 + bits) == Instruction(r, FeedByte(r, c, w & 0xFF), w >> 8, bits)
  {
    assert PeelsAt(r, c, w);
    L.ClocksSplit(r, Xor(c, w), 8, bits);
  }

  lemma HalfWordInstruction(r: L.Register<bv32>, c: bv32, b0: bv8, b1: bv8)
    requires Bytewise(r)
    ensures Instruction(r, c, Load16(b0, b1), 16) == FeedByte(r, FeedByte(r, c, b0 as bv32), b1 as bv32)
  {
    PeelInstruction(r, c, Load16(b0, b1), 8);
    Loaded16(b0, b1);
    ByteInstruction(r, FeedByte(r, c, b0 as bv32), b1);
  }

  lemma PeelTwo(r: L.Register<bv32>, c: bv32, w: bv32)
    requires Bytewise(r)
    ensures Instruction(r, c, w, 32) ==
            Instruction(r, FeedByte(r, FeedByte(r, c, w & 0xFF), (w >> 8) & 0xFF), w >> 8 >> 8, 16)
  {
    PeelInstruction(r, c, w, 24);
    PeelInstruction(r, FeedByte(r, c, w & 0xFF), w >> 8, 16);
  }

  lemma WordInstruction(r: L.Register<bv32>, c: bv32, b0: bv8, b1: bv8, b2: bv8, b3: bv8)
    requires Bytewise(r)
    ensures Instruction(r, c, Load32(b0, b1, b2, b3), 32) ==
            FeedByte(r, FeedByte(r, FeedByte(r, FeedByte(r, c, b0 as bv32), b1 as bv32), b2 as bv32), b3 as bv32)
  {
    PeelTwo(r, c, Load32(b0, b1, b2, b3));
    Loaded32(b0, b1, b2, b3);
    HalfWordInstruction(r, FeedByte(r, FeedByte(r, c, b0 as bv32), b1 as bv32), b2, b3);
  }

  lemma SerialSnoc(r: L.Register<bv32>, c: bv32, data: seq<bv8>, i: nat)
    requires i < |data|
    ensures Serial(r, c, data[..i + 1]) == FeedByte(r, Serial(r, c, data[..i]), data[i] as bv32)
  {
    assert data[..i + 1][..i] == data[..i];
  }

  lemma SerialWord(r: L.Register<bv32>, c: bv32, data: seq<bv8>, i: nat)
    requires Bytewise(r) && i + 4 <= |data|
    ensures Serial(r, c, data[..i + 4]) ==
            Instruction(r, Serial(r, c, data[..i]), Load32(data[i], data[i + 1], data[i + 2], data[i + 3]), 32)
  {
    SerialSnoc(r, c, data, i);
    SerialSnoc(r, c, data, i + 1);
    SerialSnoc(r, c, data, i + 2);
    SerialSnoc(r, c, data, i + 3);
    WordInstruction(r, Serial(r, c, data[..i]), data[i], data[i + 1], data[i + 2], data[i + 3]);
  }

  lemma SerialHalfWord(r: L.Register<bv32>, c: bv32, data: seq<bv8>, i: nat)
    requires Bytewise(r) && i + 2 <= |data|
    ensures Serial(r, c, data[..i + 2]) == Instruction(r, Serial(r, c, data[..i]), Load16(data[i], data[i + 1]), 16)
  {
    SerialSnoc(r, c, data, i);
    SerialSnoc(r, c, data, i + 1);
    HalfWordInstruction(r, Serial(r, c, data[..i]), data[i], data[i + 1]);
  }

  lemma SerialOne(r: L.Register<bv32>, c: bv32, data: seq<bv8>, i: nat)
    requires Bytewise(r) && i < |data|
    ensures Serial(r, c, data[..i + 1]) == Instruction(r, Serial(r, c, data[..i]), data[i] as bv32, 8)
  {
    SerialSnoc(r, c, data, i);
    ByteInstruction(r, Serial(r, c, data[..i]), data[i]);
  }

  /** One 32-bit instruction on the four bytes at position `i`. */
  method HwWord(r: L.Register<bv32>, ghost start: bv32, data: seq<bv8>, i: nat, partial0: bv32) returns (partial: bv32)
    requires Bytewise(r)
    requires i + 4 <= |data| && partial0 == Serial(r, start, data[..i])
    ensures partial == Serial(r, start, data[..i + 4])
  {
    SerialWord(r, start, data, i);
    partial := Instruction(r, partial0, Load32(data[i], data[i + 1], data[i + 2], data[i + 3]), 32);
  }

  /** The unrolled loop: eight bytes at a time. */
  method HwDoubleWords(r: L.Register<bv32>, ghost start: bv32, data: seq<bv8>, begin: nat, partial0: bv32)
    returns (partial: bv32, i: nat)
    requires Bytewise(r)
    requires begin <= |data| && partial0 == Serial(r, start, data[..begin])
    ensures begin <= i <= |data| && |data| - i < 8
    ensures partial == Serial(r, start, data[..i])
  {
    partial, i := partial0, begin;
    while |data| - i >= 8
      invariant begin <= i <= |data| && partial == Serial(r, start, data[..i])
    {
      partial := HwWord(r, start, data, i, partial);
      partial := HwWord(r, start, data, i + 4, partial);
      i := i + 8;
    }
  }

  method HwWords(r: L.Register<bv32>, ghost start: bv32, data: seq<bv8>, begin: nat, partial0: bv32)
    returns (partial: bv32, i: nat)
    requires Bytewise(r)
    requires begin <= |data| && partial0 == Serial(r, start, data[..begin])
    ensures begin <= i <= |data| && |data| - i < 4
    ensures partial == Serial(r, start, data[..i])
  {
    partial, i := partial0, begin;
    while |data| - i >= 4
      invariant begin <= i <= |data| && partial == Serial(r, start, data[..i])
    {
      partial := HwWord(r, start, data, i, partial);
      i := i + 4;
    }
  }

  /** The last zero to three bytes. */
  method HwTail(r: L.Register<bv32>, ghost start: bv32, data: seq<bv8>, begin: nat, partial0: bv32)
    returns (partial: bv32)
    requires Bytewise(r)
    requires begin <= |data| && |data| - begin < 4 && partial0 == Serial(r, start, data[..begin])
    ensures partial == Serial(r, start, data)
  {
    var len := |data| - begin;
    var i := begin;
    partial := partial0;
    if len / 2 % 2 == 1 {
      SerialHalfWord(r, start, data, i);
      partial := Instruction(r, partial, Load16(data[i], data[i + 1]), 16);
      i := i + 2;
    }
    if len % 2 == 1 {
      SerialOne(r, start, data, i);
      partial := Instruction(r, partial, data[i] as bv32, 8);
      i := i + 1;
    }
    assert data[..i] == data;
  }

  /**
   The hardware form, for the register the CPU implements: bytes up to a 4-byte
   boundary of the address, then words, then the tail.
   */
  method HwUpdate(r: L.Register<bv32>, start: bv32, data: seq<bv8>, addr: nat) returns (partial: bv32)
    requires Bytewise(r)
    ensures partial == Serial(r, start, data)
  {
    var alignTo := (addr + 3) / 4 * 4;
    var i := 0;
    partial := start;
    while addr + i < alignTo && i < |data|
      invariant 0 <= i <= |data| && partial == Serial(r, start, data[..i])
    {
      SerialOne(r, start, data, i);
      partial := Instruction(r, partial, data[i] as bv32, 8);
      i := i + 1;
    }
    partial, i := HwDoubleWords(r, start, data, i, partial);
    partial, i := HwWords(r, start, data, i, partial);
    partial := HwTail(r, start, data, i, partial);
  }

  /** For every start value, address and length, the hardware form is the bit-serial CRC-32C. */
  method Crc32cHw(start: bv32, data: seq<bv8>, addr: nat) returns (partial: bv32)
    ensures partial == Serial(Crc(POLY), start, data)
  {
    CrcBytewise(POLY);
    partial := HwUpdate(Crc(POLY), start, data, addr);
  }

  // ---- Data in several regions ----

  datatype Region = Region(addr: nat, bytes: seq<bv8>)

  function Flatten(regions: seq<Region>): seq<bv8> {
    if regions == [] then [] else Flatten(regions[..|regions| - 1]) + regions[|regions| - 1].bytes
  }

  /** Hashing a prefix first and continuing from its register gives the hash of the whole. */
  lemma {:induction false} SerialConcat(r: L.Register<bv32>, c: bv32, a: seq<bv8>, b: seq<bv8>)
    ensures Serial(r, c, a + b) == Serial(r, Serial(r, c, a), b)
  {
    if b == [] {
      assert a + b == a;
    } else {
      assert (a + b)[..|a + b| - 1] == a + b[..|b| - 1];
      SerialConcat(r, c, a, b[..|b| - 1]);
    }
  }

  /**
   The hash of a pattern that lies in any number of guest memory regions, each at
   its own alignment, depends only on the bytes of the pattern.
   */
  method PatternHash(regions: seq<Region>) returns (hash: bv32, pattern: seq<bv8>)
    ensures pattern == Flatten(regions)
    ensures hash == Serial(Crc(POLY), ALL_ONES, Flatten(regions)) ^ ALL_ONES
  {
    hash, pattern := ALL_ONES, [];
    for k := 0 to |regions|
      invariant pattern == Flatten(regions[..k])
      invariant hash == Serial(Crc(POLY), ALL_ONES, pattern)
    {
      assert regions[..k + 1][..k] == regions[..k];
      SerialConcat(Crc(POLY), ALL_ONES, pattern, regions[k].bytes);
      hash := Crc32cHw(hash, regions[k].bytes, regions[k].addr);
      pattern := pattern + regions[k].bytes;
    }
    assert regions[..|regions|] == regions;
    hash := hash ^ ALL_ONES;
  }

  // ---- The table-driven form ----

  lemma TableArithmetic(c: bv32, b: bv8)
    ensures (c ^ (b as bv32)) >> 8 == c >> 8
    ensures Xor(0, (c ^ (b as bv32)) & 0xFF) == (c ^ (b as bv32)) & 0xFF
    ensures Xor(0, c ^ (b as bv32)) == Xor(c, b as bv32)
    ensures ((c ^ (b as bv32)) & 0xFF) & 0xFF == (c ^ (b as bv32)) & 0xFF
    ensures ((c ^ (b as bv32)) & 0xFF) >> 8 == 0
  {
  }

  lemma IndexBelow(x: bv32)
    requires x <= 0xFF
    ensures x as int <= 255
  {
  }

  lemma Masked(x: bv32)
    ensures x & 0xFF <= 0xFF
  {
  }

  lemma IndexBack(x: bv32)
    ensures (x as int) as bv32 == x
  {
  }

  lemma IndexInRange(x: bv32, i: bv32)
    requires i == x & 0xFF
    ensures 0 <= i as int < 256
    ensures (i as int) as bv32 == i
  {
    Masked(x);
    IndexBelow(i);
    IndexBack(i);
  }

  /** One table lookup replaces eight clocks. */
  lemma TableStep(r: L.Register<bv32>, c: bv32, b: bv8)
    requires Bytewise(r)
    ensures Xor(L.Clocks(r, (c ^ (b as bv32)) & 0xFF, 8), c >> 8) == FeedByte(r, c, b as bv32)
  {
    var x := c ^ (b as bv32);
    TableArithmetic(c, b);
    assert PeelsAt(r, 0, x);
    assert PeelsAt(r, 0, x & 0xFF);
    XorZero(FeedByte(r, 0, x & 0xFF));
    ByteInstruction(r, c, b);
  }

  lemma {:induction false} ClocksSnoc(r: L.Register<bv32>, c: bv32, n: nat)
    ensures L.Clocks(r, c, n + 1) == r.clock(L.Clocks(r, c, n))
  {
    L.ClocksSplit(r, c, n, 1);
  }

  function TableEntry(r: L.Register<bv32>, j: nat): bv32
    requires j < 256
  {
    L.Clocks(r, j as bv32, 8)
  }

  method GenEntry(r: L.Register<bv32>, byte: nat) returns (crc: bv32)
    requires byte < 256
    ensures crc == TableEntry(r, byte)
  {
    crc := byte as bv32;
    for i := 0 to 8
      invariant crc == L.Clocks(r, byte as bv32, i)
    {
      ClocksSnoc(r, byte as bv32, i);
      crc := r.clock(crc);
    }
  }

  ghost predicate Filled(r: L.Register<bv32>, entries: seq<bv32>) {
    |entries| <= 256 && forall j :: 0 <= j < |entries| ==> entries[j] == TableEntry(r, j)
  }

  lemma FilledNext(r: L.Register<bv32>, entries: seq<bv32>, crc: bv32)
    requires Filled(r, entries) && |entries| < 256 && crc == TableEntry(r, |entries|)
    ensures Filled(r, entries + [crc])
  {
  }

  /** The lookup table of a register: entry `j` is eight clocks of the register that holds `j`. */
  method GenTable(r: L.Register<bv32>) returns (table: array<bv32>)
    ensures fresh(table) && table.Length == 256 && Filled(r, table[..])
  {
    table := new bv32[256];
    for byte := 0 to 256
      invariant Filled(r, table[..byte])
    {
      var crc := GenEntry(r, byte);
      ghost var done := table[..byte];
      table[byte] := crc;
      assert table[..byte + 1] == done + [crc];
      FilledNext(r, done, crc);
    }
    assert table[..] == table[..256];
  }

  method TableUpdate(r: L.Register<bv32>, table: array<bv32>, data: seq<bv8>) returns (crc: bv32)
    requires Bytewise(r)
    requires table.Length == 256 && Filled(r, table[..])
    ensures crc == Serial(r, ALL_ONES, data)
  {
    crc := ALL_ONES;
    for i := 0 to |data|
      invariant crc == Serial(r, ALL_ONES, data[..i])
    {
      SerialSnoc(r, ALL_ONES, data, i);
      TableStep(r, crc, data[i]);
      crc := TableLookup(r, table, crc, data[i]);
    }
    assert data[..|data|] == data;
  }

  method TableLookup(ghost r: L.Register<bv32>, table: array<bv32>, crc: bv32, b: bv8) returns (next: bv32)
    requires table.Length == 256 && Filled(r, table[..])
    ensures next == Xor(L.Clocks(r, (crc ^ (b as bv32)) & 0xFF, 8), crc >> 8)
  {
    var i := (crc ^ (b as bv32)) & 0xFF;
    IndexInRange(crc ^ (b as bv32), i);
    next := Xor(table[i as int], crc >> 8);
  }

  /** For every polynomial, the table-driven form is the complement of the bit-serial register. */
  method Crc32(poly: bv32, data: seq<bv8>) returns (crc: bv32)
    ensures crc == !Serial(Crc(poly), ALL_ONES, data)
  {
    CrcBytewise(poly);
    var table := GenTable(Crc(poly));
    crc := TableUpdate(Crc(poly), table, data);
    crc := !crc;
  }
}
