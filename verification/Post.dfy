/**
 The transfer of a response into the next program of a chain: each buffer of the
 response, which still lies in the memory of the VM that produced it, is copied into
 the POST area of the receiving VM, or handed to its streaming callback. Both may be
 the same VM, when a reservation is re-used.
 */
module Post {
  import opened GuestMemory

  datatype Buffer = Buffer(addr: nat, size: nat)

  /** The size of the first `n` buffers together. */
  function Sum(buffers: seq<Buffer>, n: nat): nat
    requires n <= |buffers|
  {
    if n == 0 then 0 else Sum(buffers, n - 1) + buffers[n - 1].size
  }

  lemma {:induction false} SumGrows(buffers: seq<Buffer>, m: nat, n: nat)
    requires m <= n <= |buffers|
    ensures Sum(buffers, m) <= Sum(buffers, n)
    decreases n
  {
    if m < n {
      SumGrows(buffers, m, n - 1);
    }
  }

  predicate AllInRange(mem: Memory, buffers: seq<Buffer>) {
    forall i :: 0 <= i < |buffers| ==> InRange(mem, buffers[i].addr, buffers[i].size)
  }

  /** The bytes that the first `n` buffers stand for. */
  function Content(mem: Memory, buffers: seq<Buffer>, n: nat): (r: Memory)
    requires n <= |buffers| && AllInRange(mem, buffers)
    ensures |r| == Sum(buffers, n)
  {
    if n == 0 then []
    else Content(mem, buffers, n - 1) + Read(mem, buffers[n - 1].addr, buffers[n - 1].size)
  }

  // ---- The copy as a function on memory ----

  /** What a copy of so many bytes to a destination from a source within one memory delivers. */
  type Copier = (Memory, nat, nat, nat) -> Bytes

  /** The two ranges are the same or have nothing in common. */
  predicate Apart(dst: nat, src: nat, len: nat) {
    len == 0 || dst == src || dst + len <= src || src + len <= dst
  }

  /** A copy is only defined between ranges apart; where they overlap it may deliver anything of that length. */
  function Copied(copy: Copier, mem: Memory, dst: nat, src: nat, len: nat): (r: Bytes)
    requires InRange(mem, src, len)
    ensures |r| == len
    ensures Apart(dst, src, len) ==> r == Read(mem, src, len)
  {
    var bytes := copy(mem, dst, src, len);
    if Apart(dst, src, len) || |bytes| != len then Read(mem, src, len) else bytes
  }

  /** Where the buffers are: in another memory, or in the one being written. */
  datatype Origin = Other(source: Memory) | Same(copy: Copier)

  function SourceOf(origin: Origin, mem: Memory): Memory {
    if origin.Other? then origin.source else mem
  }

  /** The bytes of one buffer as they arrive at `dst`. */
  function Piece(origin: Origin, mem: Memory, dst: nat, b: Buffer): (r: Bytes)
    requires InRange(SourceOf(origin, mem), b.addr, b.size)
    ensures |r| == b.size
  {
    match origin
    case Other(source) => Read(source, b.addr, b.size)
    case Same(copy) => Copied(copy, mem, dst, b.addr, b.size)
  }

  /** The receiving memory after the first `n` buffers were copied one after the other to `p`. */
  function Shuffle(origin: Origin, mem: Memory, buffers: seq<Buffer>, n: nat, p: nat): (r: Memory)
    requires n <= |buffers| && AllInRange(SourceOf(origin, mem), buffers) && InRange(mem, p, Sum(buffers, n))
    ensures |r| == |mem|
  {
    if n == 0 then mem
    else
      var done := Shuffle(origin, mem, buffers, n - 1, p);
      var dst := p + Sum(buffers, n - 1);
      Write(done, dst, Piece(origin, done, dst, buffers[n - 1]))
  }

  /** The copy has delivered these bytes at `p` and touched nothing else. */
  ghost predicate Delivered(mem: Memory, after: Memory, p: nat, bytes: Memory) {
    && |after| == |mem| && InRange(after, p, |bytes|)
    && Read(after, p, |bytes|) == bytes
    && (forall k :: 0 <= k < |mem| && !(p <= k < p + |bytes|) ==> after[k] == mem[k])
  }

  lemma ReadNext(mem: Memory, c: nat, m: nat, n: nat)
    requires InRange(mem, c, m + n)
    ensures Read(mem, c, m) + Read(mem, c + m, n) == Read(mem, c, m + n)
  {
  }

  lemma DeliveredNext(mem: Memory, after: Memory, p: nat, bytes: Memory, more: Memory)
    requires Delivered(mem, after, p, bytes) && InRange(mem, p, |bytes| + |more|)
    ensures Delivered(mem, Write(after, p + |bytes|, more), p, bytes + more)
  {
    var r := Write(after, p + |bytes|, more);
    ReadElsewhere(after, p + |bytes|, more, p, |bytes|);
    ReadNext(r, p, |bytes|, |more|);
  }

  /** A buffer that lies outside of what was written still holds its old bytes. */
  lemma SourceIntact(mem: Memory, after: Memory, p: nat, bytes: Memory, addr: nat, size: nat)
    requires Delivered(mem, after, p, bytes) && InRange(mem, addr, size)
    requires size == 0 || |bytes| == 0 || addr + size <= p || p + |bytes| <= addr
    ensures Read(after, addr, size) == Read(mem, addr, size)
  {
  }

  /** Between two VMs the receiver always gets the response's bytes, in order. */
  lemma {:induction false} ShuffleBetween(source: Memory, mem: Memory, buffers: seq<Buffer>, n: nat, p: nat)
    requires n <= |buffers| && AllInRange(source, buffers) && InRange(mem, p, Sum(buffers, n))
    ensures Delivered(mem, Shuffle(Other(source), mem, buffers, n, p), p, Content(source, buffers, n))
  {
    if n > 0 {
      ShuffleBetween(source, mem, buffers, n - 1, p);
      var last := buffers[n - 1];
      DeliveredNext(mem, Shuffle(Other(source), mem, buffers, n - 1, p), p, Content(source, buffers, n - 1),
                    Read(source, last.addr, last.size));
    }
  }

  // ---- Within one VM ----

  /** The first `n` buffers are consecutive parts of one response at `c`. */
  predicate Contiguous(c: nat, buffers: seq<Buffer>, n: nat)
    requires n <= |buffers|
  {
    n > 0 ==> Contiguous(c, buffers, n - 1) && buffers[n - 1].addr == c + Sum(buffers, n - 1)
  }

  lemma {:induction false} ContiguousInRange(mem: Memory, c: nat, buffers: seq<Buffer>, n: nat)
    requires n <= |buffers| && Contiguous(c, buffers, n) && InRange(mem, c, Sum(buffers, n))
    ensures forall i :: 0 <= i < n ==> InRange(mem, buffers[i].addr, buffers[i].size)
  {
    if n > 0 {
      ContiguousInRange(mem, c, buffers, n - 1);
    }
  }

  /** The buffers of a contiguous response stand for the range itself. */
  lemma {:induction false} ContiguousContent(mem: Memory, c: nat, buffers: seq<Buffer>, n: nat)
    requires n <= |buffers| && Contiguous(c, buffers, n) && AllInRange(mem, buffers) && InRange(mem, c, Sum(buffers, n))
    ensures Content(mem, buffers, n) == Read(mem, c, Sum(buffers, n))
  {
    if n > 0 {
      ContiguousContent(mem, c, buffers, n - 1);
      ReadNext(mem, c, Sum(buffers, n - 1), buffers[n - 1].size);
    }
  }

  /** How many of the first `n` buffers are not empty. */
  function Pieces(buffers: seq<Buffer>, n: nat): (r: nat)
    requires n <= |buffers|
    ensures r == 0 <==> Sum(buffers, n) == 0
  {
    if n == 0 then 0 else Pieces(buffers, n - 1) + if buffers[n - 1].size > 0 then 1 else 0
  }

  /** The POST area begins inside a response that is copied in more than one piece. */
  predicate Overtaken(c: nat, buffers: seq<Buffer>, n: nat, p: nat)
    requires n <= |buffers|
  {
    c < p < c + Sum(buffers, n) && Pieces(buffers, n) >= 2
  }

  /** One more buffer of the same memory, which the copy has not reached. */
  lemma DeliveredFrom(mem: Memory, after: Memory, p: nat, bytes: Memory, addr: nat, size: nat)
    requires Delivered(mem, after, p, bytes) && InRange(mem, addr, size) && InRange(mem, p, |bytes| + size)
    requires size == 0 || |bytes| == 0 || addr + size <= p || p + |bytes| <= addr
    ensures Delivered(mem, Write(after, p + |bytes|, Read(after, addr, size)), p, bytes + Read(mem, addr, size))
  {
    SourceIntact(mem, after, p, bytes, addr, size);
    DeliveredNext(mem, after, p, bytes, Read(mem, addr, size));
  }

  /** Some piece overlaps the place it is copied to. */
  predicate Straddled(c: nat, buffers: seq<Buffer>, n: nat, p: nat)
    requires n <= |buffers|
  {
    n > 0 &&
    (Straddled(c, buffers, n - 1, p) || !Apart(p + Sum(buffers, n - 1), c + Sum(buffers, n - 1), buffers[n - 1].size))
  }

  /** The two ways in which a response can be damaged by being copied within one VM. */
  predicate Damaged(c: nat, buffers: seq<Buffer>, n: nat, p: nat)
    requires n <= |buffers|
  {
    Overtaken(c, buffers, n, p) || Straddled(c, buffers, n, p)
  }

  /** The last piece of a response that is not damaged lies apart from its destination and from what was written. */
  lemma UndamagedLast(c: nat, buffers: seq<Buffer>, n: nat, p: nat)
    requires 0 < n <= |buffers| && Contiguous(c, buffers, n) && !Damaged(c, buffers, n, p)
    ensures !Damaged(c, buffers, n - 1, p)
    ensures var last, o := buffers[n - 1], Sum(buffers, n - 1);
            && Apart(p + o, last.addr, last.size)
            && (last.size == 0 || o == 0 || last.addr + last.size <= p || p + o <= last.addr)
  {
  }

  lemma {:induction false} ShuffleWithin(copy: Copier, mem: Memory, c: nat, buffers: seq<Buffer>, n: nat, p: nat)
    requires n <= |buffers| && Contiguous(c, buffers, n) && AllInRange(mem, buffers)
    requires InRange(mem, p, Sum(buffers, n)) && !Damaged(c, buffers, n, p)
    ensures Delivered(mem, Shuffle(Same(copy), mem, buffers, n, p), p, Content(mem, buffers, n))
  {
    if n > 0 {
      UndamagedLast(c, buffers, n, p);
      ShuffleWithin(copy, mem, c, buffers, n - 1, p);
      var last := buffers[n - 1];
      DeliveredFrom(mem, Shuffle(Same(copy), mem, buffers, n - 1, p), p, Content(mem, buffers, n - 1), last.addr,
                    last.size);
    }
  }

  /** Zero everywhere, except for what is at `x`. */
  ghost predicate OnlyAt(mem: Memory, x: nat, value: Byte) {
    x < |mem| && forall k :: 0 <= k < |mem| ==> mem[k] == if k == x then value else 0
  }

  /** Copying zeroes erases the mark exactly when the copy reaches it. */
  lemma WriteZeroes(mem: Memory, x: nat, value: Byte, at: nat, from: nat, len: nat)
    requires OnlyAt(mem, x, value) && InRange(mem, at, len) && InRange(mem, from, len)
    requires from + len <= x || value == 0
    ensures OnlyAt(Write(mem, at, Read(mem, from, len)), x, if at <= x < at + len then 0 else value)
  {
    var bytes := Read(mem, from, len);
    var r := Write(mem, at, bytes);
    forall k | 0 <= k < |mem|
      ensures r[k] == if k == x then (if at <= x < at + len then 0 else value) else 0
    {
      if at <= k < at + len {
        assert r[k] == Read(r, at, len)[k - at] == bytes[k - at] == mem[from + (k - at)];
      }
    }
  }

  /** A copy that delivers the bytes as they were. */
  function Exactly(mem: Memory, dst: nat, src: nat, len: nat): Bytes {
    if InRange(mem, src, len) then Read(mem, src, len) else []
  }

  lemma ZeroStep(mem: Memory, buffers: seq<Buffer>, n: nat, p: nat, x: nat, value: Byte)
    requires 0 < n <= |buffers| && AllInRange(mem, buffers) && InRange(mem, p, Sum(buffers, n))
    requires OnlyAt(Shuffle(Same(Exactly), mem, buffers, n - 1, p), x, value)
    requires buffers[n - 1].addr + buffers[n - 1].size <= x || value == 0
    ensures OnlyAt(Shuffle(Same(Exactly), mem, buffers, n, p), x,
                   if p + Sum(buffers, n - 1) <= x < p + Sum(buffers, n) then 0 else value)
  {
    WriteZeroes(Shuffle(Same(Exactly), mem, buffers, n - 1, p), x, value, p + Sum(buffers, n - 1),
                buffers[n - 1].addr, buffers[n - 1].size);
  }

  /** Pieces that end below the mark copy only zeroes; the mark is gone once the copy has passed it. */
  lemma {:induction false} MarkErased(mem: Memory, c: nat, buffers: seq<Buffer>, n: nat, p: nat, x: nat)
    requires n <= |buffers| && Contiguous(c, buffers, n) && AllInRange(mem, buffers)
    requires InRange(mem, p, Sum(buffers, n))
    requires OnlyAt(mem, x, 1) && p <= x && c + Sum(buffers, n) <= x
    ensures OnlyAt(Shuffle(Same(Exactly), mem, buffers, n, p), x, if x < p + Sum(buffers, n) then 0 else 1)
  {
    if n > 0 {
      MarkErased(mem, c, buffers, n - 1, p, x);
      ZeroStep(mem, buffers, n, p, x, if x < p + Sum(buffers, n - 1) then 0 else 1);
    }
  }

  /** An address that the last non-empty piece reads after an earlier piece overwrote it. */
  function Mark(c: nat, buffers: seq<Buffer>, n: nat, p: nat): nat
    requires n <= |buffers|
  {
    if n == 0 then p
    else if buffers[n - 1].size == 0 then Mark(c, buffers, n - 1, p)
    else if c + Sum(buffers, n - 1) < p then p
    else c + Sum(buffers, n - 1)
  }

  lemma {:induction false} MarkInside(c: nat, buffers: seq<Buffer>, n: nat, p: nat)
    requires n <= |buffers| && Overtaken(c, buffers, n, p)
    ensures p <= Mark(c, buffers, n, p) < c + Sum(buffers, n)
  {
    if buffers[n - 1].size == 0 {
      MarkInside(c, buffers, n - 1, p);
    }
  }

  /** When the response is overtaken, the mark is lost before it is read. */
  lemma {:induction false} MarkLost(mem: Memory, c: nat, buffers: seq<Buffer>, n: nat, p: nat, x: nat)
    requires n <= |buffers| && Contiguous(c, buffers, n) && AllInRange(mem, buffers)
    requires InRange(mem, p, Sum(buffers, n))
    requires Overtaken(c, buffers, n, p) && x == Mark(c, buffers, n, p) && OnlyAt(mem, x, 1)
    ensures OnlyAt(Shuffle(Same(Exactly), mem, buffers, n, p), x, 0)
  {
    if buffers[n - 1].size == 0 {
      MarkLost(mem, c, buffers, n - 1, p, x);
    } else {
      MarkErased(mem, c, buffers, n - 1, p, x);
    }
    ZeroStep(mem, buffers, n, p, x, 0);
  }

  /** A memory of the given size with a one at `x`. */
  function Marked(size: nat, x: nat): (r: Memory)
    requires x < size
    ensures |r| == size && OnlyAt(r, x, 1)
  {
    seq(size, k => if k == x then 1 else 0)
  }

  ghost predicate Transfers(copy: Copier, mem: Memory, buffers: seq<Buffer>, p: nat) {
    && AllInRange(mem, buffers) && InRange(mem, p, Sum(buffers, |buffers|))
    && Delivered(mem, Shuffle(Same(copy), mem, buffers, |buffers|, p), p, Content(mem, buffers, |buffers|))
  }

  /** One wrong byte is enough. */
  lemma WrongByte(copy: Copier, mem: Memory, buffers: seq<Buffer>, p: nat, k: nat)
    requires AllInRange(mem, buffers) && InRange(mem, p, Sum(buffers, |buffers|)) && k < Sum(buffers, |buffers|)
    requires Shuffle(Same(copy), mem, buffers, |buffers|, p)[p + k] != Content(mem, buffers, |buffers|)[k]
    ensures !Transfers(copy, mem, buffers, p)
  {
    var after := Shuffle(Same(copy), mem, buffers, |buffers|, p);
    assert Read(after, p, Sum(buffers, |buffers|))[k] == after[p + k];
  }

  /** An overtaken response is damaged even if every single piece is copied right. */
  lemma OvertakenFails(size: nat, c: nat, buffers: seq<Buffer>, p: nat) returns (mem: Memory)
    requires Contiguous(c, buffers, |buffers|) && c + Sum(buffers, |buffers|) <= size &&
             p + Sum(buffers, |buffers|) <= size
    requires Overtaken(c, buffers, |buffers|, p)
    ensures |mem| == size && !Transfers(Exactly, mem, buffers, p)
  {
    var n := |buffers|;
    MarkInside(c, buffers, n, p);
    var x := Mark(c, buffers, n, p);
    mem := Marked(size, x);
    ContiguousInRange(mem, c, buffers, |buffers|);
    ContiguousContent(mem, c, buffers, n);
    MarkLost(mem, c, buffers, n, p, x);
    assert Content(mem, buffers, n)[x - c] == mem[x] == 1;
    WrongByte(Exactly, mem, buffers, p, x - c);
  }

  /** A copy that delivers nothing but ones. */
  function Ones(mem: Memory, dst: nat, src: nat, len: nat): Bytes {
    seq(len, k => 1)
  }

  /** The first piece that overlaps its destination. */
  lemma {:induction false} FirstStraddled(c: nat, buffers: seq<Buffer>, n: nat, p: nat) returns (i: nat)
    requires n <= |buffers| && Straddled(c, buffers, n, p)
    ensures i < n && !Straddled(c, buffers, i, p) && !Apart(p + Sum(buffers, i), c + Sum(buffers, i), buffers[i].size)
  {
    if Straddled(c, buffers, n - 1, p) {
      i := FirstStraddled(c, buffers, n - 1, p);
    } else {
      i := n - 1;
    }
  }

  lemma {:induction false} ContiguousPrefix(c: nat, buffers: seq<Buffer>, m: nat, n: nat)
    requires m <= n <= |buffers| && Contiguous(c, buffers, n)
    ensures Contiguous(c, buffers, m) && (m < n ==> buffers[m].addr == c + Sum(buffers, m))
    decreases n
  {
    if m < n {
      ContiguousPrefix(c, buffers, m, n - 1);
    }
  }

  /** Later pieces do not touch what earlier ones delivered. */
  lemma {:induction false} LaterKeep(origin: Origin, mem: Memory, buffers: seq<Buffer>, m: nat, n: nat, p: nat, x: nat)
    requires m <= n <= |buffers| && AllInRange(SourceOf(origin, mem), buffers) && InRange(mem, p, Sum(buffers, n))
    requires Sum(buffers, m) <= Sum(buffers, n) && p <= x < p + Sum(buffers, m)
    ensures Shuffle(origin, mem, buffers, n, p)[x] == Shuffle(origin, mem, buffers, m, p)[x]
    decreases n
  {
    if m < n {
      SumGrows(buffers, m, n - 1);
      LaterKeep(origin, mem, buffers, m, n - 1, p, x);
    }
  }

  /** The first byte of a piece that overlaps its destination may arrive as a one. */
  lemma StraddledByte(mem: Memory, buffers: seq<Buffer>, i: nat, p: nat)
    requires i < |buffers| && AllInRange(mem, buffers) && InRange(mem, p, Sum(buffers, i + 1))
    requires !Apart(p + Sum(buffers, i), buffers[i].addr, buffers[i].size)
    ensures Shuffle(Same(Ones), mem, buffers, i + 1, p)[p + Sum(buffers, i)] == 1
  {
    var done := Shuffle(Same(Ones), mem, buffers, i, p);
    var x := p + Sum(buffers, i);
    var bytes := Copied(Ones, done, x, buffers[i].addr, buffers[i].size);
    assert bytes[0] == 1;
    WriteEffect(done, x, bytes);
    assert Read(Write(done, x, bytes), x, |bytes|)[0] == Write(done, x, bytes)[x];
  }

  /** In a memory of zeroes the first overlapping piece may arrive as ones. */
  lemma StraddledFails(size: nat, c: nat, buffers: seq<Buffer>, p: nat) returns (mem: Memory)
    requires Contiguous(c, buffers, |buffers|) && c + Sum(buffers, |buffers|) <= size &&
             p + Sum(buffers, |buffers|) <= size
    requires Straddled(c, buffers, |buffers|, p)
    ensures |mem| == size && !Transfers(Ones, mem, buffers, p)
  {
    mem := seq(size, k => 0);
    var n := |buffers|;
    var i := FirstStraddled(c, buffers, n, p);
    ContiguousInRange(mem, c, buffers, n);
    ContiguousContent(mem, c, buffers, n);
    ContiguousPrefix(c, buffers, i, n);
    SumGrows(buffers, i + 1, n);
    StraddledAt(mem, c, buffers, p, i);
  }

  lemma StraddledAt(mem: Memory, c: nat, buffers: seq<Buffer>, p: nat, i: nat)
    requires AllInRange(mem, buffers) && InRange(mem, c, Sum(buffers, |buffers|)) &&
             InRange(mem, p, Sum(buffers, |buffers|))
    requires forall k :: 0 <= k < |mem| ==> mem[k] == 0
    requires Content(mem, buffers, |buffers|) == Read(mem, c, Sum(buffers, |buffers|))
    requires i < |buffers| && !Apart(p + Sum(buffers, i), buffers[i].addr, buffers[i].size)
    requires Sum(buffers, i + 1) <= Sum(buffers, |buffers|)
    ensures !Transfers(Ones, mem, buffers, p)
  {
    var k := Sum(buffers, i);
    assert k < Sum(buffers, i + 1);
    StraddledByte(mem, buffers, i, p);
    LaterKeep(Same(Ones), mem, buffers, i + 1, |buffers|, p, p + k);
    ZeroContent(mem, c, buffers, k);
    WrongByte(Ones, mem, buffers, p, k);
  }

  lemma ZeroContent(mem: Memory, c: nat, buffers: seq<Buffer>, k: nat)
    requires AllInRange(mem, buffers) && InRange(mem, c, Sum(buffers, |buffers|)) && k < Sum(buffers, |buffers|)
    requires forall i :: 0 <= i < |mem| ==> mem[i] == 0
    requires Content(mem, buffers, |buffers|) == Read(mem, c, Sum(buffers, |buffers|))
    ensures Content(mem, buffers, |buffers|)[k] == 0
  {
  }

  /**
   Within one VM the transfer is right for every memory content and every outcome of
   overlapping copies if and only if the POST area does not begin inside a response
   copied in several pieces, and no piece overlaps its destination.
   */
  lemma WithinExact(size: nat, c: nat, buffers: seq<Buffer>, p: nat)
    requires Contiguous(c, buffers, |buffers|) && c + Sum(buffers, |buffers|) <= size &&
             p + Sum(buffers, |buffers|) <= size
    ensures (forall copy: Copier, mem: Memory :: |mem| == size ==> Transfers(copy, mem, buffers, p))
            <==> !Damaged(c, buffers, |buffers|, p)
  {
    if Overtaken(c, buffers, |buffers|, p) {
      var mem := OvertakenFails(size, c, buffers, p);
    } else if Straddled(c, buffers, |buffers|, p) {
      var mem := StraddledFails(size, c, buffers, p);
    } else {
      forall copy: Copier, mem: Memory | |mem| == size
        ensures Transfers(copy, mem, buffers, p)
      {
        ContiguousInRange(mem, c, buffers, |buffers|);
        ShuffleWithin(copy, mem, c, buffers, |buffers|, p);
      }
    }
  }

  // ---- The whole transfer ----

  /** Address and size of a VM's POST area. */
  datatype PostArea = PostArea(data: nat, size: nat)

  /** The area is kept if it is large enough, or replaced by one at `place`. */
  function Allocated(area: PostArea, bytes: nat, place: nat): (r: PostArea)
    ensures bytes <= r.size
    ensures bytes <= area.size ==> r == area
  {
    if area.size < bytes then PostArea(place, bytes) else area
  }

  /** The transfer stops at the second buffer when the first was empty and left an address behind. */
  predicate Aborts(mem: Memory, buffers: seq<Buffer>, capacity: nat, p: nat) {
    |buffers| >= 2 && buffers[0].size == 0 && buffers[1].size <= capacity && p != 0 && p <= |mem|
  }

  predicate Fits(mem: Memory, buffers: seq<Buffer>, capacity: nat, p: nat) {
    Sum(buffers, |buffers|) <= capacity && (buffers != [] ==> InRange(mem, p, Sum(buffers, |buffers|)))
  }

  /** A failed assertion takes the process down; otherwise the VM refuses the transfer or takes it over. */
  datatype Received = Crashed | Refused | Taken(memory: Memory, area: PostArea, content: Bytes)

  function Transfer(origin: Origin, mem: Memory, area: PostArea, buffers: seq<Buffer>, capacity: nat,
                    place: nat): Received
    requires AllInRange(SourceOf(origin, mem), buffers)
  {
    var after := Allocated(area, capacity, place);
    if Aborts(mem, buffers, capacity, after.data) then Crashed
    else if !Fits(mem, buffers, capacity, after.data) then Refused
    else if buffers == [] then Taken(mem, area, [])
    else
      var memory := Shuffle(origin, mem, buffers, |buffers|, after.data);
      Taken(memory, after, Read(memory, after.data, Sum(buffers, |buffers|)))
  }

  /**
   What is taken over is the previous response, and nothing but the POST area changes:
   always between two VMs, and within one VM unless the copy damages it.
   */
  lemma TakenIsResponse(origin: Origin, mem: Memory, area: PostArea, buffers: seq<Buffer>, capacity: nat, place: nat,
                        c: nat)
    requires AllInRange(SourceOf(origin, mem), buffers)
    requires origin.Same? ==>
               && Contiguous(c, buffers, |buffers|)
               && !Damaged(c, buffers, |buffers|, Allocated(area, capacity, place).data)
    ensures var r := Transfer(origin, mem, area, buffers, capacity, place);
            r.Taken? ==>
              && r.content == Content(SourceOf(origin, mem), buffers, |buffers|) && |r.content| <= capacity
              && |r.memory| == |mem| && (r.area.data + |r.content| <= |mem| || buffers == [])
              && (forall k :: 0 <= k < |mem| && !(r.area.data <= k < r.area.data + |r.content|) ==>
                    r.memory[k] == mem[k])
  {
    var p := Allocated(area, capacity, place).data;
    if buffers != [] && Fits(mem, buffers, capacity, p) {
      match origin
      case Other(source) => ShuffleBetween(source, mem, buffers, |buffers|, p);
      case Same(copy) => ShuffleWithin(copy, mem, c, buffers, |buffers|, p);
    }
  }

  /** Whatever arrives, nothing outside of the POST area changes. */
  lemma {:induction false} ShuffleOutside(origin: Origin, mem: Memory, buffers: seq<Buffer>, n: nat, p: nat, k: nat)
    requires n <= |buffers| && AllInRange(SourceOf(origin, mem), buffers) && InRange(mem, p, Sum(buffers, n))
    requires k < |mem| && !(p <= k < p + Sum(buffers, n))
    ensures Shuffle(origin, mem, buffers, n, p)[k] == mem[k]
  {
    if n > 0 {
      ShuffleOutside(origin, mem, buffers, n - 1, p, k);
    }
  }

  /** The transfer within one VM gives the program the previous response. */
  ghost predicate Gives(copy: Copier, mem: Memory, area: PostArea, buffers: seq<Buffer>, capacity: nat, place: nat) {
    AllInRange(mem, buffers) &&
    var r := Transfer(Same(copy), mem, area, buffers, capacity, place);
    r.Taken? && r.content == Content(mem, buffers, |buffers|)
  }

  lemma GivesTransfers(copy: Copier, mem: Memory, area: PostArea, buffers: seq<Buffer>, capacity: nat, place: nat)
    requires buffers != [] && Gives(copy, mem, area, buffers, capacity, place)
    ensures Transfers(copy, mem, buffers, Allocated(area, capacity, place).data)
  {
    var p := Allocated(area, capacity, place).data;
    forall k | 0 <= k < |mem| && !(p <= k < p + Sum(buffers, |buffers|))
      ensures Shuffle(Same(copy), mem, buffers, |buffers|, p)[k] == mem[k]
    {
      ShuffleOutside(Same(copy), mem, buffers, |buffers|, p, k);
    }
  }

  /**
   A program re-using the VM of the one before is given the previous response, whatever
   the memory holds and overlapping copies deliver, if and only if it is not damaged.
   */
  lemma TransferExact(size: nat, area: PostArea, c: nat, buffers: seq<Buffer>, place: nat)
    requires Contiguous(c, buffers, |buffers|) && c + Sum(buffers, |buffers|) <= size
    requires Allocated(area, Sum(buffers, |buffers|), place).data + Sum(buffers, |buffers|) <= size
    requires |buffers| <= 1 || buffers[0].size > 0
    ensures (forall copy: Copier, mem: Memory :: |mem| == size ==>
               Gives(copy, mem, area, buffers, Sum(buffers, |buffers|), place))
            <==> !Damaged(c, buffers, |buffers|, Allocated(area, Sum(buffers, |buffers|), place).data)
  {
    var capacity := Sum(buffers, |buffers|);
    var p := Allocated(area, capacity, place).data;
    WithinExact(size, c, buffers, p);
    if Damaged(c, buffers, |buffers|, p) {
      var copy, mem :| |mem| == size && !Transfers(copy, mem, buffers, p);
      if Gives(copy, mem, area, buffers, capacity, place) {
        GivesTransfers(copy, mem, area, buffers, capacity, place);
      }
    } else {
      forall copy: Copier, mem: Memory | |mem| == size
        ensures Gives(copy, mem, area, buffers, capacity, place)
      {
        ContiguousInRange(mem, c, buffers, |buffers|);
        TakenIsResponse(Same(copy), mem, area, buffers, capacity, place, c);
      }
    }
  }

  /** Buffers as the gatherer delivers them, none of them empty, never crash the transfer. */
  lemma GatheredNeverCrashes(origin: Origin, mem: Memory, area: PostArea, buffers: seq<Buffer>, capacity: nat,
                             place: nat)
    requires AllInRange(SourceOf(origin, mem), buffers)
    requires |buffers| <= 1 || buffers[0].size > 0
    ensures !Transfer(origin, mem, area, buffers, capacity, place).Crashed?
  {
  }

  // ---- The operations ----

  /** The part of a VM that a POST touches. */
  class Guest {
    var memory: Memory
    var postData: nat
    var postSize: nat

    function PostAreaOf(): PostArea
      reads this
    {
      PostArea(postData, postSize)
    }

    constructor (memory: Memory, area: PostArea)
      ensures this.memory == memory && PostAreaOf() == area
    {
      this.memory, postData, postSize := memory, area.data, area.size;
    }

    method AllocatePostData(bytes: nat, place: nat) returns (address: nat)
      modifies this`postData, this`postSize
      ensures PostAreaOf() == Allocated(old(PostAreaOf()), bytes, place)
      ensures address == postData && bytes <= postSize
    {
      if postSize < bytes {
        postData := place;
        postSize := bytes;
      }
      return postData;
    }
  }

  class BackendPost {
    var address: nat
    const capacity: nat
    var length: nat

    constructor (capacity: nat)
      ensures address == 0 && length == 0 && this.capacity == capacity
    {
      address, this.capacity, length := 0, capacity, 0;
    }
  }

  datatype Outcome = Done | Failed | Aborted

  /**
   One segment of data for a VM without a streaming callback. The data lies in the
   memory of `from`, and is read when it is copied.
   */
  method StreamingPost(from: Guest, vm: Guest, post: BackendPost, b: Buffer, place: nat, copy: Copier)
    returns (outcome: Outcome)
    requires InRange(from.memory, b.addr, b.size)
    modifies vm, post
    ensures
      var o := old(post.length);
      var area := if o == 0 then Allocated(old(vm.PostAreaOf()), post.capacity, place) else old(vm.PostAreaOf());
      var p := if o == 0 then area.data else old(post.address);
      if o + b.size > post.capacity then outcome == Failed && vm.memory == old(vm.memory)
      else if o == 0 && old(post.address) != 0 then outcome == Aborted && vm.memory == old(vm.memory)
      else if !InRange(old(vm.memory), p + o, b.size) then outcome == Failed && vm.memory == old(vm.memory)
      else
        && outcome == Done && post.address == p && post.length == o + b.size && vm.PostAreaOf() == area
        && vm.memory == Write(old(vm.memory), p + o,
                              Piece(if from == vm then Same(copy) else Other(old(from.memory)), old(vm.memory), p + o,
                                    b))
  {
    if post.length + b.size > post.capacity {
      return Failed;
    }
    if post.length == 0 {
      if post.address != 0 {
        return Aborted;
      }
      post.address := vm.AllocatePostData(post.capacity, place);
    }
    var dst := post.address + post.length;
    if !InRange(vm.memory, dst, b.size) {
      return Failed;
    }
    var data := if from == vm then Copied(copy, vm.memory, dst, b.addr, b.size) else Read(from.memory, b.addr, b.size);
    vm.memory := Write(vm.memory, dst, data);
    post.length := post.length + b.size;
    return Done;
  }

  /** The state after `i` buffers of a transfer. */
  ghost predicate Transferring(origin: Origin, mem: Memory, buffers: seq<Buffer>, capacity: nat, p: nat,
                               i: nat, memory: Memory, address: nat, length: nat) {
    && i <= |buffers| && AllInRange(SourceOf(origin, mem), buffers)
    && length == Sum(buffers, i) <= capacity
    && (i == 0 ==> memory == mem && address == 0)
    && (i > 0 ==>
          && address == p && InRange(mem, p, length)
          && memory == Shuffle(origin, mem, buffers, i, p))
    && (i > 1 ==> buffers[0].size > 0 || p == 0)
  }

  lemma TransferringFacts(origin: Origin, mem: Memory, buffers: seq<Buffer>, capacity: nat, p: nat,
                          i: nat, memory: Memory, address: nat, length: nat)
    requires Transferring(origin, mem, buffers, capacity, p, i, memory, address, length)
    ensures |memory| == |mem| && (length > 0 ==> address == p)
  {
  }

  /** A turn that fails means that the transfer does not fit, and that it would not abort. */
  lemma TurnFails(origin: Origin, mem: Memory, buffers: seq<Buffer>, capacity: nat, p: nat,
                  i: nat, memory: Memory, address: nat, length: nat, b: Buffer)
    requires Transferring(origin, mem, buffers, capacity, p, i, memory, address, length)
    requires i < |buffers| && b == buffers[i]
    requires length + b.size > capacity || (!InRange(mem, p + length, b.size) && !(length == 0 && address != 0))
    ensures !Fits(mem, buffers, capacity, p) && !Aborts(mem, buffers, capacity, p)
  {
    SumGrows(buffers, i + 1, |buffers|);
    assert Sum(buffers, 1) == buffers[0].size;
  }

  lemma TurnAborts(origin: Origin, mem: Memory, buffers: seq<Buffer>, capacity: nat, p: nat,
                   i: nat, memory: Memory, address: nat, length: nat, b: Buffer)
    requires Transferring(origin, mem, buffers, capacity, p, i, memory, address, length)
    requires i < |buffers| && b == buffers[i]
    requires length + b.size <= capacity && length == 0 && address != 0
    ensures Aborts(mem, buffers, capacity, p)
  {
    SumGrows(buffers, 1, i);
    assert Sum(buffers, 1) == buffers[0].size;
  }

  lemma TurnDone(origin: Origin, mem: Memory, buffers: seq<Buffer>, capacity: nat, p: nat,
                 i: nat, memory: Memory, address: nat, length: nat, b: Buffer)
    requires Transferring(origin, mem, buffers, capacity, p, i, memory, address, length)
    requires i < |buffers| && b == buffers[i]
    requires length + b.size <= capacity && !(length == 0 && address != 0) && InRange(mem, p + length, b.size)
    ensures |memory| == |mem| && InRange(SourceOf(origin, memory), b.addr, b.size)
    ensures Transferring(origin, mem, buffers, capacity, p, i + 1,
                         Write(memory, p + length, Piece(origin, memory, p + length, b)), p, length + b.size)
  {
    assert i == 0 ==> memory == Shuffle(origin, mem, buffers, 0, p);
    assert i == 1 ==> Sum(buffers, 1) == buffers[0].size;
  }

  /** One turn of the transfer: the POST area stays once it is chosen. */
  method TransferBuffer(from: Guest, vm: Guest, post: BackendPost, b: Buffer, place: nat, copy: Copier,
                        ghost origin: Origin, ghost mem: Memory, ghost area: PostArea, ghost buffers: seq<Buffer>,
                        ghost i: nat)
    returns (outcome: Outcome)
    requires Transferring(origin, mem, buffers, post.capacity, area.data, i, vm.memory, post.address, post.length)
    requires i < |buffers| && b == buffers[i]
    requires origin == if from == vm then Same(copy) else Other(from.memory)
    requires Allocated(vm.PostAreaOf(), post.capacity, place) == area && (i > 0 ==> vm.PostAreaOf() == area)
    modifies vm, post
    ensures outcome == Failed ==>
              !Fits(mem, buffers, post.capacity, area.data) && !Aborts(mem, buffers, post.capacity, area.data)
    ensures outcome == Aborted ==> Aborts(mem, buffers, post.capacity, area.data)
    ensures outcome == Done ==>
              && Transferring(origin, mem, buffers, post.capacity, area.data, i + 1, vm.memory, post.address,
                              post.length)
              && vm.PostAreaOf() == area
  {
    ghost var memory, address, length := vm.memory, post.address, post.length;
    TransferringFacts(origin, mem, buffers, post.capacity, area.data, i, memory, address, length);
    outcome := StreamingPost(from, vm, post, b, place, copy);
    if outcome == Failed {
      TurnFails(origin, mem, buffers, post.capacity, area.data, i, memory, address, length, b);
    } else if outcome == Aborted {
      TurnAborts(origin, mem, buffers, post.capacity, area.data, i, memory, address, length, b);
    } else {
      TurnDone(origin, mem, buffers, post.capacity, area.data, i, memory, address, length, b);
    }
  }

  /**
   Copies every buffer of the previous response, held by `from`, into the POST area of
   `vm`. `place` is where a new area would be mapped, which is never address zero.
   */
  method PostToAnother(from: Guest, vm: Guest, post: BackendPost, buffers: seq<Buffer>, place: nat, copy: Copier)
    returns (outcome: Outcome)
    requires post.address == 0 && post.length == 0 && place != 0
    requires AllInRange(from.memory, buffers)
    modifies vm, post
    ensures var r := Transfer(if from == vm then Same(copy) else Other(old(from.memory)), old(vm.memory),
                              old(vm.PostAreaOf()), buffers, post.capacity, place);
            && (outcome == Aborted <==> r.Crashed?) && (outcome == Failed <==> r.Refused?)
            && (outcome == Done ==>
                  && vm.memory == r.memory && vm.PostAreaOf() == r.area && post.length == |r.content|
                  && (buffers != [] ==>
                        InRange(vm.memory, post.address, post.length) &&
                        Read(vm.memory, post.address, post.length) == r.content))
  {
    ghost var origin := if from == vm then Same(copy) else Other(from.memory);
    ghost var mem, before := vm.memory, vm.PostAreaOf();
    ghost var area := Allocated(vm.PostAreaOf(), post.capacity, place);
    var i := 0;
    while i < |buffers|
      invariant 0 <= i <= |buffers|
      invariant Transferring(origin, mem, buffers, post.capacity, area.data, i, vm.memory, post.address, post.length)
      invariant origin == if from == vm then Same(copy) else Other(from.memory)
      invariant vm.PostAreaOf() == if i == 0 then before else area
    {
      outcome := TransferBuffer(from, vm, post, buffers[i], place, copy, origin, mem, area, buffers, i);
      if outcome != Done {
        return;
      }
      i := i + 1;
    }
    outcome := Done;
  }

  // ---- The streaming callback ----

  /** One call of the program's streaming function. */
  datatype Segment = Segment(data: Memory, offset: nat)

  function Joined(segments: seq<Segment>): Memory {
    if segments == [] then [] else Joined(segments[..|segments| - 1]) + segments[|segments| - 1].data
  }

  /** Every segment was announced at the position where it belongs. */
  ghost predicate InOrder(segments: seq<Segment>) {
    segments != [] ==>
      && InOrder(segments[..|segments| - 1])
      && segments[|segments| - 1].offset == |Joined(segments[..|segments| - 1])|
  }

  lemma InOrderNext(segments: seq<Segment>, data: Memory)
    requires InOrder(segments)
    ensures var more := segments + [Segment(data, |Joined(segments)|)];
            InOrder(more) && Joined(more) == Joined(segments) + data
  {
    var more := segments + [Segment(data, |Joined(segments)|)];
    assert more[..|more| - 1] == segments;
  }

  /** The first `n` buffers all went through: within capacity, and consumed to the last byte. */
  ghost predicate Consumed(source: Memory, buffers: seq<Buffer>, n: nat, capacity: nat, consume: Segment -> int)
    requires n <= |buffers| && AllInRange(source, buffers)
  {
    n > 0 ==>
      && Consumed(source, buffers, n - 1, capacity, consume)
      && Sum(buffers, n) <= capacity
      && consume(Segment(Read(source, buffers[n - 1].addr, buffers[n - 1].size),
                         Sum(buffers, n - 1))) == buffers[n - 1].size
  }

  lemma {:induction false} ConsumedPrefix(source: Memory, buffers: seq<Buffer>, m: nat, n: nat, capacity: nat,
                                          consume: Segment -> int)
    requires m <= n <= |buffers| && AllInRange(source, buffers) && Consumed(source, buffers, n, capacity, consume)
    ensures Consumed(source, buffers, m, capacity, consume)
    decreases n
  {
    if m < n {
      ConsumedPrefix(source, buffers, m, n - 1, capacity, consume);
    }
  }

  /** A buffer that did not go through means that not all of them do. */
  lemma NotConsumed(source: Memory, buffers: seq<Buffer>, i: nat, capacity: nat, consume: Segment -> int)
    requires i < |buffers| && AllInRange(source, buffers) && !Consumed(source, buffers, i + 1, capacity, consume)
    ensures !Consumed(source, buffers, |buffers|, capacity, consume)
  {
    if Consumed(source, buffers, |buffers|, capacity, consume) {
      ConsumedPrefix(source, buffers, i + 1, |buffers|, capacity, consume);
    }
  }

  /**
   The transfer to a VM with a streaming function: each buffer is passed to it with the
   number of bytes passed before. `consume` is how many bytes the function says it took,
   negative for an exception. Between two VMs the buffers stay as they are.
   */
  method PostToCallback(from: Guest, post: BackendPost, buffers: seq<Buffer>, consume: Segment -> int)
    returns (ok: bool, segments: seq<Segment>)
    requires post.length == 0 && AllInRange(from.memory, buffers)
    modifies post
    ensures ok <==> Consumed(from.memory, buffers, |buffers|, post.capacity, consume)
    ensures InOrder(segments)
    ensures ok ==> Joined(segments) == Content(from.memory, buffers, |buffers|)
    ensures ok ==> |segments| == |buffers| && post.length == Sum(buffers, |buffers|)
  {
    segments := [];
    for i := 0 to |buffers|
      invariant |segments| == i && post.length == Sum(buffers, i)
      invariant InOrder(segments) && Joined(segments) == Content(from.memory, buffers, i)
      invariant Consumed(from.memory, buffers, i, post.capacity, consume)
    {
      var data := Read(from.memory, buffers[i].addr, buffers[i].size);
      if post.length + |data| > post.capacity {
        NotConsumed(from.memory, buffers, i, post.capacity, consume);
        return false, segments;
      }
      InOrderNext(segments, data);
      var segment := Segment(data, post.length);
      segments := segments + [segment];
      var taken := consume(segment);
      if taken < 0 {
        NotConsumed(from.memory, buffers, i, post.capacity, consume);
        return false, segments;
      }
      post.length := post.length + |data|;
      if taken != |data| {
        NotConsumed(from.memory, buffers, i, post.capacity, consume);
        return false, segments;
      }
    }
    ok := true;
  }
}
