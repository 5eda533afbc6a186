/** Byte strings, and guest memory with reads and writes of ranges. */
module GuestMemory {

  type Byte = x: int | 0 <= x < 256

  type Bytes = seq<Byte>

  type Memory = Bytes

  predicate InRange(mem: Memory, addr: nat, len: nat) {
    addr + len <= |mem|
  }

  function Read(mem: Memory, addr: nat, len: nat): Memory
    requires InRange(mem, addr, len)
  {
    mem[addr..addr + len]
  }

  function Write(mem: Memory, addr: nat, bytes: Memory): (r: Memory)
    requires InRange(mem, addr, |bytes|)
    ensures |r| == |mem|
  {
    seq(|mem|, k requires 0 <= k < |mem| => if addr <= k < addr + |bytes| then bytes[k - addr] else mem[k])
  }

  /** What was written can be read back, and the rest of memory is as before. */
  lemma WriteEffect(mem: Memory, addr: nat, bytes: Memory)
    requires InRange(mem, addr, |bytes|)
    ensures Read(Write(mem, addr, bytes), addr, |bytes|) == bytes
    ensures forall k :: 0 <= k < |mem| && !(addr <= k < addr + |bytes|) ==> Write(mem, addr, bytes)[k] == mem[k]
  {
  }

  /** A write elsewhere does not disturb a range. */
  lemma ReadElsewhere(mem: Memory, addr: nat, bytes: Memory, a: nat, len: nat)
    requires InRange(mem, addr, |bytes|) && InRange(mem, a, len)
    requires a + len <= addr || addr + |bytes| <= a
    ensures Read(Write(mem, addr, bytes), a, len) == Read(mem, a, len)
  {
  }
}
