/**
 Calls from a request VM into the storage VM: the caller's buffers are copied below
 the storage VM's stack, the storage function runs, and its result is copied back.
 Addresses are 64-bit and wrap around. Also the transfer of serialized state from
 the old to the new storage VM in a live update.
 */
module StorageCall {
  import opened GuestMemory

  const W: nat := 0x1_0000_0000_0000_0000

  /** Guest memory is smaller than half of the address space. */
  const MAX_MEMORY: nat := 0x8000_0000_0000_0000

  datatype VirtBuffer = VirtBuffer(addr: nat, len: nat)

  const DESCRIPTOR: nat := 16

  /** Subtraction of `uint64_t`. */
  function Minus(a: nat, b: nat): (r: nat)
    requires a < W && b < W
    ensures r < W && (b <= a ==> r == a - b) && (b > a ==> r == W + a - b)
  {
    (a - b + W) % W
  }

  function AlignDown8(a: int): (r: int)
    ensures r % 8 == 0 && r <= a < r + 8
    ensures a >= 0 ==> r >= 0
  {
    a - a % 8
  }

  function AlignDown16(a: nat): (r: nat)
    ensures r % 16 == 0 && r <= a < r + 16
  {
    a - a % 16
  }

  // ---- Descriptors in guest memory ----

  /** Little-endian bytes of an integer. */
  function Encode(x: nat, n: nat): (r: Memory)
    ensures |r| == n
    decreases n
  {
    if n == 0 then [] else [x % 256] + Encode(x / 256, n - 1)
  }

  function Decode(bytes: Memory): nat {
    if bytes == [] then 0 else bytes[0] + 256 * Decode(bytes[1..])
  }

  function Pow256(n: nat): nat {
    if n == 0 then 1 else 256 * Pow256(n - 1)
  }

  lemma {:induction false} DecodeEncode(x: nat, n: nat)
    requires x < Pow256(n)
    ensures Decode(Encode(x, n)) == x
    decreases n
  {
    if n > 0 {
      DecodeEncode(x / 256, n - 1);
      assert Encode(x, n)[1..] == Encode(x / 256, n - 1);
    }
  }

  function EncodeBuffer(b: VirtBuffer): (r: Memory)
    ensures |r| == DESCRIPTOR
  {
    Encode(b.addr, 8) + Encode(b.len, 8)
  }

  /** An array whose elements are encoded one after the other. */
  function EncodeArray<T>(items: seq<T>, encode: T -> Memory): Memory {
    if items == [] then [] else EncodeArray(items[..|items| - 1], encode) + encode(items[|items| - 1])
  }

  ghost predicate Encodes<T(!new)>(encode: T -> Memory) {
    forall x :: |encode(x)| == DESCRIPTOR
  }

  lemma {:induction false} ArrayLength<T(!new)>(items: seq<T>, encode: T -> Memory)
    requires Encodes(encode)
    ensures |EncodeArray(items, encode)| == DESCRIPTOR * |items|
  {
    if items != [] {
      ArrayLength(items[..|items| - 1], encode);
    }
  }

  function EncodeBuffers(buffers: seq<VirtBuffer>): (r: Memory)
    ensures |r| == DESCRIPTOR * |buffers|
  {
    ArrayLength(buffers, EncodeBuffer);
    EncodeArray(buffers, EncodeBuffer)
  }

  function DecodeBuffer(bytes: Memory): VirtBuffer
    requires |bytes| == DESCRIPTOR
  {
    VirtBuffer(Decode(bytes[..8]), Decode(bytes[8..]))
  }

  lemma DecodeEncodeBuffer(b: VirtBuffer)
    requires b.addr < W && b.len < W
    ensures DecodeBuffer(EncodeBuffer(b)) == b
  {
    assert Pow256(8) == W by {
      assert Pow256(4) == 0x1_0000_0000;
    }
    DecodeEncode(b.addr, 8);
    DecodeEncode(b.len, 8);
    var bytes := EncodeBuffer(b);
    assert bytes[..8] == Encode(b.addr, 8);
    assert bytes[8..] == Encode(b.len, 8);
  }

  function Entry(bytes: Memory, i: nat): (r: Memory)
    requires DESCRIPTOR * i + DESCRIPTOR <= |bytes|
    ensures |r| == DESCRIPTOR
  {
    bytes[DESCRIPTOR * i..DESCRIPTOR * i + DESCRIPTOR]
  }

  lemma EntryOfPrefix(a: Memory, b: Memory, i: nat)
    requires DESCRIPTOR * i + DESCRIPTOR <= |a|
    ensures Entry(a + b, i) == Entry(a, i)
  {
  }

  lemma EntryOfLast(a: Memory, b: Memory, i: nat)
    requires |a| == DESCRIPTOR * i && |b| == DESCRIPTOR
    ensures Entry(a + b, i) == b
  {
  }

  /** Entry `i` of the array is the encoding of element `i`. */
  lemma {:induction false} EntryAt<T(!new)>(items: seq<T>, encode: T -> Memory, i: nat)
    requires i < |items| && Encodes(encode)
    ensures |EncodeArray(items, encode)| == DESCRIPTOR * |items|
    ensures Entry(EncodeArray(items, encode), i) == encode(items[i])
  {
    var n := |items| - 1;
    ArrayLength(items, encode);
    ArrayLength(items[..n], encode);
    var init := EncodeArray(items[..n], encode);
    if i < n {
      EntryAt(items[..n], encode, i);
      EntryOfPrefix(init, encode(items[n]), i);
    } else {
      EntryOfLast(init, encode(items[n]), i);
    }
  }

  /** What the guest reads in entry `i` of the descriptor array is the descriptor. */
  lemma DescriptorReadable(buffers: seq<VirtBuffer>, i: nat)
    requires i < |buffers| && buffers[i].addr < W && buffers[i].len < W
    ensures DecodeBuffer(Entry(EncodeBuffers(buffers), i)) == buffers[i]
  {
    EntryAt(buffers, EncodeBuffer, i);
    DecodeEncodeBuffer(buffers[i]);
  }

  // ---- The layout ----

  /** The end of the region in which buffer `i` was placed: the stack top, or the previous buffer. */
  function Above(placed: seq<VirtBuffer>, stack: nat, i: nat): nat
    requires i <= |placed|
  {
    if i == 0 then stack else placed[i - 1].addr
  }

  /** The first `n` buffers lie one below the other under the stack top, aligned, with the caller's bytes. */
  ghost predicate Placed(src: Memory, given: seq<VirtBuffer>, placed: seq<VirtBuffer>, n: nat, stack: nat,
                         mem: Memory) {
    && n <= |given| == |placed|
    && (forall i :: 0 <= i < n ==>
          && placed[i].len == given[i].len && placed[i].addr % 8 == 0
          && placed[i].addr + placed[i].len <= Above(placed, stack, i)
          && InRange(src, given[i].addr, given[i].len) && InRange(mem, placed[i].addr, placed[i].len)
          && Read(mem, placed[i].addr, placed[i].len) == Read(src, given[i].addr, given[i].len))
  }

  /** Everything the storage function finds when it is called. */
  ghost predicate Layout(src: Memory, given: seq<VirtBuffer>, placed: seq<VirtBuffer>,
                         stack: nat, before: Memory, mem: Memory, bufAddr: nat, newStack: nat) {
    var n := |given|;
    && Placed(src, given, placed, n, stack, mem)
    && bufAddr + DESCRIPTOR * n <= Above(placed, stack, n)
    && (n > 0 ==> bufAddr % 8 == 0)
    && newStack % 16 == 0 && newStack <= bufAddr < newStack + 16
    && |mem| == |before|
    && InRange(mem, bufAddr, DESCRIPTOR * n) && Read(mem, bufAddr, DESCRIPTOR * n) == EncodeBuffers(placed)
    && (forall k :: 0 <= k < |mem| && !(bufAddr <= k < stack) ==> mem[k] == before[k])
  }

  class Machine {
    var mem: Memory
    const stackAddress: nat

    constructor (mem: Memory, stackAddress: nat)
      ensures this.mem == mem && this.stackAddress == stackAddress
    {
      this.mem, this.stackAddress := mem, stackAddress;
    }
  }

  ghost predicate Stacked(placed: seq<VirtBuffer>, stack: nat, n: nat) {
    n <= |placed| && forall i :: 0 <= i < n ==> placed[i].addr + placed[i].len <= Above(placed, stack, i)
  }

  lemma {:induction false} StackedAbove(placed: seq<VirtBuffer>, stack: nat, n: nat, i: nat)
    requires Stacked(placed, stack, n) && i < n
    ensures Above(placed, stack, n) <= placed[i].addr && placed[i].addr + placed[i].len <= stack
    decreases n
  {
    if i < n - 1 {
      StackedAbove(placed, stack, n - 1, i);
    } else if i > 0 {
      StackedAbove(placed, stack, n - 1, i - 1);
    }
  }

  /** A write below everything placed so far leaves it in place. */
  lemma PlacedFrame(src: Memory, given: seq<VirtBuffer>, placed: seq<VirtBuffer>, n: nat, stack: nat, mem: Memory,
                    addr: nat, bytes: Memory)
    requires Placed(src, given, placed, n, stack, mem)
    requires InRange(mem, addr, |bytes|) && addr + |bytes| <= Above(placed, stack, n)
    ensures Placed(src, given, placed, n, stack, Write(mem, addr, bytes))
  {
    forall i | 0 <= i < n
      ensures Read(Write(mem, addr, bytes), placed[i].addr, placed[i].len) == Read(mem, placed[i].addr, placed[i].len)
    {
      StackedAbove(placed, stack, n, i);
      ReadElsewhere(mem, addr, bytes, placed[i].addr, placed[i].len);
    }
  }

  /** One turn of the placing loop: subtract, align, copy; false where the copy raises an exception. */
  method PlaceOne(src: Memory, stm: Machine, vaddr0: nat, b: VirtBuffer) returns (ok: bool, vaddr: nat)
    requires vaddr0 < W && b.len < W && |stm.mem| < MAX_MEMORY
    modifies stm
    ensures vaddr0 <= |old(stm.mem)| ==> (ok <==> InRange(src, b.addr, b.len) && b.len <= vaddr0)
    ensures ok ==> vaddr + b.len <= vaddr0 && vaddr == AlignDown8(vaddr0 - b.len)
    ensures ok ==> InRange(src, b.addr, b.len) && InRange(old(stm.mem), vaddr, b.len)
    ensures ok ==> stm.mem == Write(old(stm.mem), vaddr, Read(src, b.addr, b.len))
    ensures !ok ==> stm.mem == old(stm.mem)
  {
    vaddr := AlignDown8(Minus(vaddr0, b.len));
    ok := InRange(src, b.addr, b.len) && InRange(stm.mem, vaddr, b.len);
    if ok {
      stm.mem := Write(stm.mem, vaddr, Read(src, b.addr, b.len));
    }
  }

  /** Where placing the buffers ends if addresses did not wrap; negative when the stack is too short. */
  function Bottom(stack: int, given: seq<VirtBuffer>): int {
    if given == [] then stack
    else
      AlignDown8(Bottom(stack, given[..|given| - 1]) - given[|given| - 1].len)
  }

  lemma {:induction false} BottomFalls(stack: int, given: seq<VirtBuffer>, i: nat)
    requires i <= |given|
    ensures Bottom(stack, given) <= Bottom(stack, given[..i])
  {
    if i < |given| {
      BottomFalls(stack, given[..|given| - 1], i);
      assert given[..|given| - 1][..i] == given[..i];
    } else {
      assert given[..i] == given;
    }
  }

  lemma BottomNext(stack: int, given: seq<VirtBuffer>, i: nat, vaddr: int, b: VirtBuffer)
    requires i < |given| && b == given[i] && vaddr == Bottom(stack, given[..i])
    ensures AlignDown8(vaddr - b.len) == Bottom(stack, given[..i + 1])
  {
    assert given[..i + 1][..i] == given[..i];
  }

  /**
   The inputs fit: the caller's buffers are in its memory and all of it goes below the stack
   top. A buffer of no bytes at an address outside the memory does not count as in it.
   */
  ghost predicate Fits(src: Memory, given: seq<VirtBuffer>, stack: nat) {
    && (forall i :: 0 <= i < |given| ==> InRange(src, given[i].addr, given[i].len))
    && DESCRIPTOR * |given| <= Bottom(stack, given)
  }

  /** A buffer that could not be placed means that the inputs do not fit. */
  lemma NoRoom(src: Memory, given: seq<VirtBuffer>, stack: nat, i: nat)
    requires i < |given|
    requires !(InRange(src, given[i].addr, given[i].len) && given[i].len <= Bottom(stack, given[..i]))
    ensures !Fits(src, given, stack)
  {
    BottomNext(stack, given, i, Bottom(stack, given[..i]), given[i]);
    BottomFalls(stack, given, i + 1);
  }

  /** What holds after the first `i` buffers: the rest is as given, memory outside the used part as before. */
  ghost predicate Placing(src: Memory, given: seq<VirtBuffer>, before: Memory, stack: nat,
                          placed: seq<VirtBuffer>, mem: Memory, i: nat, vaddr: nat) {
    && Placed(src, given, placed, i, stack, mem)
    && vaddr == Above(placed, stack, i) && vaddr <= stack
    && (forall j :: i <= j < |given| ==> placed[j] == given[j])
    && |mem| == |before|
    && (forall k :: 0 <= k < |before| && !(vaddr <= k < stack) ==> mem[k] == before[k])
  }

  lemma PlacingNext(src: Memory, given: seq<VirtBuffer>, before: Memory, stack: nat, placed: seq<VirtBuffer>,
                    mem: Memory, i: nat, vaddr: nat, b: VirtBuffer, next: nat)
    requires Placing(src, given, before, stack, placed, mem, i, vaddr) && i < |placed| && b == placed[i]
    requires next + b.len <= vaddr && next % 8 == 0
    requires InRange(src, b.addr, b.len) && InRange(mem, next, b.len)
    ensures Placing(src, given, before, stack, placed[i := b.(addr := next)],
                    Write(mem, next, Read(src, b.addr, b.len)), i + 1, next)
  {
    PlacedNext(src, given, placed, i, stack, mem, next);
    WriteEffect(mem, next, Read(src, b.addr, b.len));
  }

  /** One turn of the placing loop. */
  method PlaceNext(src: Memory, stm: Machine, b: VirtBuffer, vaddr: nat,
                   ghost given: seq<VirtBuffer>, ghost before: Memory, ghost placed: seq<VirtBuffer>, ghost i: nat)
    returns (ok: bool, next: nat)
    requires stm.stackAddress <= |stm.mem| < MAX_MEMORY
    requires Placing(src, given, before, stm.stackAddress, placed, stm.mem, i, vaddr)
    requires i < |placed| && b == placed[i] == given[i] && b.len < W
    requires vaddr == Bottom(stm.stackAddress, given[..i])
    modifies stm
    ensures !ok ==> !Fits(src, given, stm.stackAddress)
    ensures ok ==> next == Bottom(stm.stackAddress, given[..i + 1])
    ensures ok ==> Placing(src, given, before, stm.stackAddress, placed[i := b.(addr := next)], stm.mem, i + 1, next)
  {
    ghost var mem := stm.mem;
    ok, next := PlaceOne(src, stm, vaddr, b);
    if ok {
      BottomNext(stm.stackAddress, given, i, vaddr, b);
      PlacingNext(src, given, before, stm.stackAddress, placed, mem, i, vaddr, b, next);
    } else {
      NoRoom(src, given, stm.stackAddress, i);
    }
  }

  /** The placing loop; the caller's buffers get their new addresses. */
  method PlaceBuffers(src: Memory, stm: Machine, buffers: array<VirtBuffer>) returns (ok: bool, vaddr: nat)
    requires stm.stackAddress <= |stm.mem| < MAX_MEMORY
    requires forall i :: 0 <= i < buffers.Length ==> buffers[i].len < W
    modifies stm, buffers
    ensures !ok ==> !Fits(src, old(buffers[..]), stm.stackAddress)
    ensures ok ==> Placing(src, old(buffers[..]), old(stm.mem), stm.stackAddress, buffers[..], stm.mem, buffers.Length,
                           vaddr)
    ensures ok ==> vaddr == Bottom(stm.stackAddress, old(buffers[..]))
  {
    ghost var given, before := buffers[..], stm.mem;
    ok, vaddr := true, stm.stackAddress;
    var i := 0;
    while i < buffers.Length
      invariant 0 <= i <= buffers.Length
      invariant Placing(src, given, before, stm.stackAddress, buffers[..], stm.mem, i, vaddr)
      invariant vaddr == Bottom(stm.stackAddress, given[..i])
    {
      var b := buffers[i];
      ghost var placed := buffers[..];
      ok, vaddr := PlaceNext(src, stm, b, vaddr, given, before, placed, i);
      if !ok {
        return;
      }
      buffers[i] := b.(addr := vaddr);
      assert buffers[..] == placed[i := b.(addr := vaddr)];
      i := i + 1;
    }
    assert given[..i] == given;
    ok := true;
  }

  /**
   Copies the buffers and their descriptors below the storage stack. An address that
   wrapped around is out of range, so this succeeds exactly when the inputs fit, and
   then the layout is right.
   */
  method PlaceInputs(src: Memory, stm: Machine, buffers: array<VirtBuffer>)
    returns (ok: bool, bufAddr: nat, newStack: nat)
    requires stm.stackAddress <= |stm.mem| < MAX_MEMORY && DESCRIPTOR * buffers.Length < W
    requires forall i :: 0 <= i < buffers.Length ==> buffers[i].len < W
    modifies stm, buffers
    ensures ok <==> Fits(src, old(buffers[..]), stm.stackAddress)
    ensures ok ==> Layout(src, old(buffers[..]), buffers[..], stm.stackAddress, old(stm.mem), stm.mem, bufAddr,
                          newStack)
  {
    ghost var given, before := buffers[..], stm.mem;
    var fine, vaddr := PlaceBuffers(src, stm, buffers);
    if !fine {
      return false, 0, 0;
    }
    ok, bufAddr, newStack := PlaceDescriptors(src, stm, given, buffers[..], vaddr, before);
  }

  /** One more buffer placed below the others. */
  lemma PlacedNext(src: Memory, given: seq<VirtBuffer>, placed: seq<VirtBuffer>, i: nat, stack: nat, mem: Memory,
                   next: nat)
    requires Placed(src, given, placed, i, stack, mem) && i < |placed| && placed[i] == given[i]
    requires next % 8 == 0 && next + given[i].len <= Above(placed, stack, i)
    requires InRange(src, given[i].addr, given[i].len) && InRange(mem, next, given[i].len)
    ensures Placed(src, given, placed[i := VirtBuffer(next, given[i].len)], i + 1, stack,
                   Write(mem, next, Read(src, given[i].addr, given[i].len)))
  {
    PlacedFrame(src, given, placed, i, stack, mem, next, Read(src, given[i].addr, given[i].len));
    WriteEffect(mem, next, Read(src, given[i].addr, given[i].len));
  }

  lemma DescriptorsAligned(vaddr: nat, n: nat)
    requires DESCRIPTOR * n <= vaddr && vaddr % 8 == 0
    ensures (vaddr - DESCRIPTOR * n) % 8 == 0
  {
    var q := vaddr / 8;
    assert vaddr - DESCRIPTOR * n == 8 * (q - 2 * n);
  }

  /** With the descriptors written below the last buffer the layout is complete. */
  lemma LayoutComplete(src: Memory, given: seq<VirtBuffer>, before: Memory, stack: nat, placed: seq<VirtBuffer>,
                       mem: Memory, vaddr: nat, bufAddr: nat)
    requires Placing(src, given, before, stack, placed, mem, |given|, vaddr)
    requires bufAddr + DESCRIPTOR * |given| == vaddr <= |mem|
    ensures Layout(src, given, placed, stack, before, Write(mem, bufAddr, EncodeBuffers(placed)), bufAddr,
                   AlignDown16(bufAddr))
  {
    if |given| > 0 {
      DescriptorsAligned(vaddr, |given|);
    }
    PlacedFrame(src, given, placed, |given|, stack, mem, bufAddr, EncodeBuffers(placed));
    WriteEffect(mem, bufAddr, EncodeBuffers(placed));
  }

  /** The descriptor array goes below the last buffer, the new stack pointer below that. */
  method PlaceDescriptors(ghost src: Memory, stm: Machine, ghost given: seq<VirtBuffer>, placed: seq<VirtBuffer>,
                          vaddr: nat, ghost before: Memory)
    returns (ok: bool, bufAddr: nat, newStack: nat)
    requires stm.stackAddress <= |stm.mem| < MAX_MEMORY && DESCRIPTOR * |placed| < W
    requires Placing(src, given, before, stm.stackAddress, placed, stm.mem, |given|, vaddr)
    modifies stm
    ensures ok <==> DESCRIPTOR * |placed| <= vaddr
    ensures ok ==> Layout(src, given, placed, stm.stackAddress, before, stm.mem, bufAddr, newStack)
  {
    bufAddr := Minus(vaddr, DESCRIPTOR * |placed|);
    newStack := AlignDown16(bufAddr);
    ok := InRange(stm.mem, bufAddr, DESCRIPTOR * |placed|);
    if ok {
      LayoutComplete(src, given, before, stm.stackAddress, placed, stm.mem, vaddr, bufAddr);
      stm.mem := Write(stm.mem, bufAddr, EncodeBuffers(placed));
    }
  }

  /**
   In a layout every buffer lies below the stack top and above the descriptor array,
   aligned and with the caller's bytes, and the guest reads its descriptor back.
   */
  lemma LayoutPlaces(src: Memory, given: seq<VirtBuffer>, placed: seq<VirtBuffer>, stack: nat, before: Memory,
                     mem: Memory, bufAddr: nat, newStack: nat, i: nat)
    requires Layout(src, given, placed, stack, before, mem, bufAddr, newStack)
    requires i < |placed| && stack < W && given[i].len < W
    ensures newStack <= bufAddr && bufAddr + DESCRIPTOR * |placed| <= placed[i].addr
    ensures placed[i].addr + placed[i].len <= stack && placed[i].addr % 8 == 0 && placed[i].len == given[i].len
    ensures Read(mem, placed[i].addr, placed[i].len) == Read(src, given[i].addr, given[i].len)
    ensures DecodeBuffer(Entry(Read(mem, bufAddr, DESCRIPTOR * |placed|), i)) == placed[i]
  {
    StackedAbove(placed, stack, |placed|, i);
    DescriptorReadable(placed, i);
  }

  /** Two buffers have nothing in common. */
  lemma LayoutSeparates(src: Memory, given: seq<VirtBuffer>, placed: seq<VirtBuffer>, stack: nat, before: Memory,
                        mem: Memory, bufAddr: nat, newStack: nat, i: nat, j: nat)
    requires Layout(src, given, placed, stack, before, mem, bufAddr, newStack) && i < j < |placed|
    ensures placed[j].addr + placed[j].len <= placed[i].addr
  {
    StackedAbove(placed, stack, j, i);
    assert Stacked(placed, stack, |placed|);
  }

  // ---- The call ----

  type Register = x: nat | x < W

  /** A `uint64_t` returned as `long`. */
  function ToLong(x: Register): (r: int)
    ensures r == -1 <==> x == W - 1
    ensures 0 <= r ==> r == x
  {
    if x < MAX_MEMORY then x else x - W
  }

  /** What a guest's run left: its memory and, without an exception, registers and the last response call. */
  datatype GuestRun =
    | Threw(mem: Memory)
    | Stopped(mem: Memory, stopped: bool, responseCalled: nat, rdi: Register, rsi: Register)

  datatype Outcome = Thrown | Returned(value: int)

  predicate IsAllowed(allowList: set<nat>, func: nat) {
    allowList == {} || func in allowList
  }

  function Min(a: nat, b: nat): nat {
    if a < b then a else b
  }

  /** The storage function stopped in one of the two return calls, and its result can be copied. */
  predicate Proper(run: GuestRun, src: Memory, resAddr: nat, resSize: nat) {
    && run.Stopped? && run.stopped && (run.responseCalled == 2 || run.responseCalled == 3)
    && (resAddr != 0 && run.rdi != 0 ==>
          InRange(run.mem, run.rdi, Min(run.rsi, resSize)) && InRange(src, resAddr, Min(run.rsi, resSize)))
  }

  /** The function responded properly, and its cleanup, if it asked for one, raised no exception. */
  predicate Completed(run: GuestRun, cleanup: Memory -> GuestRun, src: Memory, resAddr: nat, resSize: nat) {
    Proper(run, src, resAddr, resSize) && (run.responseCalled == 2 ==> cleanup(run.mem).Stopped?)
  }

  /**
   How a run of the storage function shows in the caller: the value returned, and the
   caller's memory, which gets at most `resSize` bytes of the function's result. The
   value -1 stands for a failure, and for a function that returns it as a length.
   */
  ghost predicate Answered(run: GuestRun, cleanup: Memory -> GuestRun, before: Memory, resAddr: nat, resSize: nat,
                           outcome: Outcome, after: Memory)
    requires resSize < W
  {
    && outcome.Returned?
    && outcome.value == (if Completed(run, cleanup, before, resAddr, resSize)
                         then ToLong(if resAddr != 0 then Min(run.rsi, resSize) else run.rsi) else -1)
    && (if Proper(run, before, resAddr, resSize) && resAddr != 0 && run.rdi != 0
        then after == Write(before, resAddr, Read(run.mem, run.rdi, Min(run.rsi, resSize)))
        else after == before)
  }

  /**
   The whole call. `guest` is the storage function, `cleanup` its run after a
   response that asks to be resumed. The function is called with `input`, the storage
   VM's memory holding the caller's buffers.
   */
  method CallStorage(src: Machine, stm: Machine, allowList: set<nat>, func: nat, buffers: array<VirtBuffer>,
                     resAddr: nat, resSize: nat,
                     guest: (Memory, nat, nat, nat) -> GuestRun, cleanup: Memory -> GuestRun)
    returns (outcome: Outcome, ghost input: Memory, ghost newStack: nat, ghost bufAddr: nat)
    requires src != stm && resAddr < W && resSize < W
    requires stm.stackAddress <= |stm.mem| < MAX_MEMORY && DESCRIPTOR * buffers.Length < W
    requires forall i :: 0 <= i < buffers.Length ==> buffers[i].len < W
    modifies src, stm, buffers
    ensures resAddr + resSize >= W ==> outcome == Returned(-1)
    ensures resAddr + resSize < W ==>
              (outcome == Thrown <==>
               !IsAllowed(allowList, func) || !Fits(old(src.mem), old(buffers[..]), stm.stackAddress))
    ensures resAddr + resSize >= W || !IsAllowed(allowList, func) ==> stm.mem == old(stm.mem)
    ensures resAddr + resSize >= W || outcome == Thrown ==> src.mem == old(src.mem)
    ensures resAddr + resSize < W && outcome != Thrown ==>
              && Layout(old(src.mem), old(buffers[..]), buffers[..], stm.stackAddress, old(stm.mem), input, bufAddr,
                        newStack)
              && Answered(guest(input, newStack, bufAddr, resSize), cleanup, old(src.mem), resAddr, resSize, outcome,
                          src.mem)
  {
    input, newStack, bufAddr := [], 0, 0;
    if resAddr + resSize >= W {
      outcome := Returned(-1);
      return;
    }
    if !IsAllowed(allowList, func) {
      outcome := Thrown;
      return;
    }
    var ok, descriptors, stack := PlaceInputs(src.mem, stm, buffers);
    if !ok {
      outcome := Thrown;
      return;
    }
    input, newStack, bufAddr := stm.mem, stack, descriptors;
    outcome := RunStorage(src, stm, guest(stm.mem, stack, descriptors, resSize), resAddr, resSize, cleanup);
  }

  /** From the return of the storage function on; every exception here yields -1. */
  method RunStorage(src: Machine, stm: Machine, run: GuestRun, resAddr: nat, resSize: nat, cleanup: Memory -> GuestRun)
    returns (outcome: Outcome)
    requires src != stm && resSize < W
    modifies src, stm
    ensures Answered(run, cleanup, old(src.mem), resAddr, resSize, outcome, src.mem)
  {
    stm.mem := run.mem;
    if run.Threw? {
      return Returned(-1);
    }
    var resume := run.responseCalled == 2;
    var noreturn := run.responseCalled == 3;
    if !run.stopped || !(resume || noreturn) {
      return Returned(-1);
    }
    var size := Min(run.rsi, resSize);
    if resAddr != 0 && run.rdi != 0 {
      if !InRange(stm.mem, run.rdi, size) || !InRange(src.mem, resAddr, size) {
        return Returned(-1);
      }
      src.mem := Write(src.mem, resAddr, Read(stm.mem, run.rdi, size));
    }
    var retval := if resAddr != 0 then size else run.rsi;
    if resume {
      var rest := cleanup(stm.mem);
      stm.mem := rest.mem;
      if rest.Threw? {
        return Returned(-1);
      }
    }
    return Returned(ToLong(retval));
  }

  /** Whatever the storage function does, only the result buffer of the caller changes. */
  lemma CallerProtected(run: GuestRun, cleanup: Memory -> GuestRun, before: Memory, resAddr: nat, resSize: nat,
                        outcome: Outcome, after: Memory, k: nat)
    requires resSize < W && Answered(run, cleanup, before, resAddr, resSize, outcome, after)
    requires k < |before| && !(resAddr <= k < resAddr + resSize)
    ensures |after| == |before| && after[k] == before[k]
    ensures resAddr == 0 ==> after == before
    ensures resAddr != 0 ==> outcome.value <= resSize
  {
  }

  /** The caller can tell a failure from the value if and only if it supplied a buffer or the length is not 2^64 - 1. */
  lemma FailureVisible(run: GuestRun, cleanup: Memory -> GuestRun, before: Memory, resAddr: nat, resSize: nat,
                       outcome: Outcome, after: Memory)
    requires resAddr + resSize < W && Answered(run, cleanup, before, resAddr, resSize, outcome, after)
    ensures outcome.value == -1 <==>
              !Completed(run, cleanup, before, resAddr, resSize) || (resAddr == 0 && run.rsi == W - 1)
  {
  }

  // ---- Live update ----

  /**
   The old storage VM serializes, the new one offers a destination, and the shorter
   of the two lengths is copied before the new VM resumes with exactly that memory.
   */
  method LiveUpdateCall(oldVm: Machine, newVm: Machine, serialize: GuestRun, restore: GuestRun,
                        resume: Memory -> GuestRun)
    returns (transferred: int)
    requires oldVm != newVm
    modifies oldVm, newVm
    ensures serialize.Stopped? && serialize.rdi != 0 && serialize.rdi + serialize.rsi < W && restore.Stopped? ==>
              var size := Min(restore.rsi, serialize.rsi);
              if restore.rdi == 0 then transferred == 0 && newVm.mem == restore.mem
              else if !InRange(serialize.mem, serialize.rdi, size) || !InRange(restore.mem, restore.rdi, size)
              then transferred == -1 && newVm.mem == restore.mem
              else
                var run := resume(Write(restore.mem, restore.rdi, Read(serialize.mem, serialize.rdi, size)));
                transferred == (if run.Stopped? then ToLong(size) else -1) && newVm.mem == run.mem
    ensures oldVm.mem == serialize.mem
    ensures restore.Threw? ==> transferred == -1
    ensures serialize.Threw? || serialize.rdi == 0 || serialize.rdi + serialize.rsi >= W ==>
              transferred == -1 && newVm.mem == old(newVm.mem)
  {
    oldVm.mem := serialize.mem;
    if serialize.Threw? {
      return -1;
    }
    if serialize.rdi + serialize.rsi >= W || serialize.rdi == 0 {
      return -1;
    }
    newVm.mem := restore.mem;
    if restore.Threw? {
      return -1;
    }
    var size := Min(restore.rsi, serialize.rsi);
    if restore.rdi == 0 {
      return 0;
    }
    if !InRange(oldVm.mem, serialize.rdi, size) || !InRange(newVm.mem, restore.rdi, size) {
      return -1;
    }
    newVm.mem := Write(newVm.mem, restore.rdi, Read(oldVm.mem, serialize.rdi, size));
    var run := resume(newVm.mem);
    newVm.mem := run.mem;
    return if run.Threw? then -1 else ToLong(size);
  }
}
