/** The fixed memory map of the DMA engines. */
module MemoryMap {
  const IO_BUFFER_SIZE: nat := 16384          // 2^14
  const DESC_SIZE: nat := 64                  // sizeof(xsgdmadesc_t)

  const SOUND_IO: nat := 0x80004000
  const SOUND_RING: nat := 0x80010000
  const SOUND_BDS: nat := 2

  const ETH_RX_IO: nat := 0x80008000
  const ETH_TX_IO: nat := ETH_RX_IO + IO_BUFFER_SIZE
  const ETH_RX_RING: nat := 0x80010080
  const ETH_TX_RING: nat := 0x80010300
  const ETH_BDS: nat := 10
  const MTU: nat := 1536
}

/** Laying scatter-gather descriptors and their buffers out as a ring. */
module SgRing {
  import opened Common
  import opened MemoryMap

  /** The fields of a descriptor that the software reads or writes. */
  datatype Desc = Desc(next: nat, buffer: nat, bufferLen: nat, sof: bool, eof: bool,
                       transLen: nat, cmplt: bool)

  const ZERO := Desc(0, 0, 0, false, false, 0, false)

  /** Address of the i-th descriptor of a ring at `head`. */
  function DescAddr(head: nat, i: nat): nat { head + DESC_SIZE * i }

  function BufferAddr(ioHead: nat, chunk: nat, i: nat): nat { ioHead + i * chunk }

  /** What a freshly built ring of n descriptors looks like. */
  predicate IsRing(descs: seq<Desc>, head: nat, ioHead: nat, chunk: nat, n: nat) {
    && 1 <= n <= |descs|
    && forall i :: 0 <= i < n ==>
         descs[i] == Desc(DescAddr(head, Next(i, n)), BufferAddr(ioHead, chunk, i), chunk, true, true, 0, false)
  }

  /** The part of it that outlives traffic: next pointers and buffer addresses. */
  predicate Linked(descs: seq<Desc>, head: nat, ioHead: nat, chunk: nat, n: nat) {
    && 1 <= n <= |descs|
    && forall i :: 0 <= i < n ==>
         descs[i].next == DescAddr(head, Next(i, n)) && descs[i].buffer == BufferAddr(ioHead, chunk, i)
  }

  /** What the set-up calls demand of their arguments: whole words, within the I/O area, and
      a positive whole number of chunks. */
  predicate ArgsOk(allocLen: nat, ioBuff: nat)
    requires ioBuff > 0
  {
    ioBuff % 4 == 0 && allocLen <= IO_BUFFER_SIZE && allocLen >= ioBuff && allocLen % ioBuff == 0
  }

  function Times(n: nat, k: nat): nat { n * k }

  /** The tests pass exactly for a positive number of chunks, each a number of whole words,
      that fit the area of 16 KiB. */
  lemma ArgsExactly(allocLen: nat, ioBuff: nat)
    requires ioBuff > 0
    ensures ArgsOk(allocLen, ioBuff) <==>
      && (exists w: nat :: Times(w, 4) == ioBuff)
      && (exists n: nat :: n >= 1 && Times(n, ioBuff) == allocLen)
      && allocLen <= 0x4000
  {
    if ArgsOk(allocLen, ioBuff) {
      assert Times(ioBuff / 4, 4) == ioBuff;
      DivPositive(allocLen, ioBuff);
      assert Times(allocLen / ioBuff, ioBuff) == allocLen;
    }
    forall n: nat | n >= 1 && Times(n, ioBuff) == allocLen ensures allocLen % ioBuff == 0 && allocLen >= ioBuff {
      MultipleOf(n, ioBuff);
    }
  }

  lemma MultipleOf(n: nat, k: nat)
    requires n >= 1 && k > 0
    ensures Times(n, k) % k == 0 && Times(n, k) >= k
  {
    var q, r := Times(n, k) / k, Times(n, k) % k;
    assert n * k == k * q + r;
    if n > q { AtLeast(n - q, k); } else if q > n { AtLeast(q - n, k); }
    assert (n - q) * k == r;
    AtLeast(n, k);
  }

  lemma AtLeast(d: nat, k: nat)
    requires d >= 1
    ensures d * k >= k
  {
    assert d * k == (d - 1) * k + k;
  }

  /** Build the ring. The callers have checked that `len` is a positive multiple of `chunk`. */
  method Build(mem: array<Desc>, head: nat, ioHead: nat, len: nat, chunk: nat) returns (count: nat)
    requires 1 <= chunk <= len && len / chunk <= mem.Length
    modifies mem
    ensures count == len / chunk
    ensures IsRing(mem[..], head, ioHead, chunk, count)
    ensures mem[count..] == old(mem[count..])
  {
    count := len / chunk;
    DivPositive(len, chunk);
    var j := 0;
    while j < count
      invariant 0 <= j <= count
      invariant forall k :: 0 <= k < j ==> mem[k] == ZERO
      invariant mem[count..] == old(mem[count..])
    {
      mem[j] := ZERO;
      j := j + 1;
    }

    var i, saAddr := 0, ioHead;
    while i < count
      invariant 0 <= i <= count && saAddr == BufferAddr(ioHead, chunk, i)
      invariant forall k :: i <= k < count ==> mem[k] == ZERO
      invariant forall k :: 0 <= k < i ==>
        mem[k] == Desc(DescAddr(head, k + 1), BufferAddr(ioHead, chunk, k), chunk, true, true, 0, false)
      invariant mem[count..] == old(mem[count..])
    {
      mem[i] := mem[i].(sof := true, eof := true, bufferLen := chunk,
                        next := DescAddr(head, i + 1), buffer := saAddr);
      BufferStep(ioHead, chunk, i);
      i, saAddr := i + 1, saAddr + chunk;
    }
    mem[i - 1] := mem[i - 1].(next := head);
  }

  lemma DivPositive(len: nat, chunk: nat)
    requires 1 <= chunk <= len
    ensures len / chunk >= 1
  {
    assert len == chunk * (len / chunk) + len % chunk;
  }

  lemma BufferStep(ioHead: nat, chunk: nat, i: nat)
    ensures BufferAddr(ioHead, chunk, i + 1) == BufferAddr(ioHead, chunk, i) + chunk
  {
    assert (i + 1) * chunk == i * chunk + chunk;
  }

  // ---- one cycle through all descriptors --------------------------------

  /** Follow `next` k times from descriptor i, by address. */
  function Chase(descs: seq<Desc>, head: nat, i: nat, k: nat): nat
    requires i < |descs|
    decreases k
  {
    if k == 0 then DescAddr(head, i) else
      var a := descs[i].next;
      if a < head || (a - head) / DESC_SIZE >= |descs| then a
      else Chase(descs, head, (a - head) / DESC_SIZE, k - 1)
  }

  lemma {:induction false} ChaseIsRotation(descs: seq<Desc>, head: nat, ioHead: nat, chunk: nat, n: nat, i: nat, k: nat)
    requires Linked(descs, head, ioHead, chunk, n) && i < n && k <= n
    ensures Chase(descs, head, i, k) == DescAddr(head, if i + k < n then i + k else i + k - n)
    decreases k
  {
    if k == 0 {
    } else {
      assert (descs[i].next - head) / DESC_SIZE == Next(i, n);
      ChaseIsRotation(descs, head, ioHead, chunk, n, Next(i, n), k - 1);
    }
  }

  /** The next pointers form a single n-cycle: from any descriptor, n hops come
      home, no fewer do, and every descriptor is met on the way. */
  lemma SingleCycle(descs: seq<Desc>, head: nat, ioHead: nat, chunk: nat, n: nat, i: nat)
    requires Linked(descs, head, ioHead, chunk, n) && i < n
    ensures Chase(descs, head, i, n) == DescAddr(head, i)
    ensures forall k :: 0 < k < n ==> Chase(descs, head, i, k) != DescAddr(head, i)
    ensures forall j :: 0 <= j < n ==> Meets(descs, head, i, j, n)
  {
    ChaseIsRotation(descs, head, ioHead, chunk, n, i, n);
    forall k | 0 < k < n ensures Chase(descs, head, i, k) != DescAddr(head, i) {
      ChaseIsRotation(descs, head, ioHead, chunk, n, i, k);
    }
    forall j | 0 <= j < n ensures Meets(descs, head, i, j, n) {
      CycleMeets(descs, head, ioHead, chunk, n, i, j);
    }
  }

  ghost predicate Meets(descs: seq<Desc>, head: nat, i: nat, j: nat, n: nat)
    requires i < |descs|
  {
    exists k :: 0 <= k < n && Chase(descs, head, i, k) == DescAddr(head, j)
  }

  lemma CycleMeets(descs: seq<Desc>, head: nat, ioHead: nat, chunk: nat, n: nat, i: nat, j: nat)
    requires Linked(descs, head, ioHead, chunk, n) && i < n && j < n
    ensures Meets(descs, head, i, j, n)
  {
    ChaseIsRotation(descs, head, ioHead, chunk, n, i, if i <= j then j - i else j - i + n);
  }

  // ---- the buffers tile the area ----------------------------------------

  predicate InBuffer(a: nat, ioHead: nat, chunk: nat, i: nat) {
    BufferAddr(ioHead, chunk, i) <= a < BufferAddr(ioHead, chunk, i) + chunk
  }

  lemma MulMono(i: nat, j: nat, chunk: nat)
    requires i < j
    ensures i * chunk + chunk <= j * chunk
  {
    var d := j - i - 1;
    assert j == i + 1 + d;
    Distribute(i, d, chunk);
  }

  lemma Distribute(i: nat, d: nat, chunk: nat)
    ensures (i + 1 + d) * chunk == i * chunk + chunk + d * chunk && d * chunk >= 0
  {
  }

  /** An address is in the area exactly when it is in one of the n buffers, and never in two. */
  lemma BuffersTile(ioHead: nat, chunk: nat, n: nat, a: nat)
    requires chunk >= 1
    ensures (ioHead <= a < ioHead + n * chunk) <==> exists i :: 0 <= i < n && InBuffer(a, ioHead, chunk, i)
    ensures forall i: nat, j: nat :: InBuffer(a, ioHead, chunk, i) && InBuffer(a, ioHead, chunk, j) ==> i == j
  {
    forall i: nat, j: nat | InBuffer(a, ioHead, chunk, i) && InBuffer(a, ioHead, chunk, j) ensures i == j {
      if i < j { MulMono(i, j, chunk); } else if j < i { MulMono(j, i, chunk); }
    }
    if ioHead <= a < ioHead + n * chunk {
      var i := (a - ioHead) / chunk;
      assert a - ioHead == chunk * i + (a - ioHead) % chunk;
      assert chunk * i == i * chunk;
      if i >= n { if n < i { MulMono(n, i, chunk); } assert false; }
      assert InBuffer(a, ioHead, chunk, i);
    }
    if i :| 0 <= i < n && InBuffer(a, ioHead, chunk, i) {
      MulMono(i, n, chunk);
    }
  }

  /** On a fresh ring every descriptor is ready for the engine, and each buffer, by the length
      in its descriptor, ends where the next one begins, the last at the end of the area. */
  lemma FreshRing(descs: seq<Desc>, head: nat, ioHead: nat, chunk: nat, n: nat, i: nat)
    requires IsRing(descs, head, ioHead, chunk, n) && i < n
    ensures descs[i].sof && descs[i].eof && !descs[i].cmplt && descs[i].transLen == 0
    ensures descs[0].buffer == ioHead
    ensures descs[i].buffer + descs[i].bufferLen == if i + 1 < n then descs[i + 1].buffer else ioHead + n * chunk
    ensures i + 1 < n ==> descs[i].next == head + 64 * (i + 1)
    ensures i + 1 == n ==> descs[i].next == head
  {
    BufferStep(ioHead, chunk, i);
  }

  // ---- the transmit queue's admission test on such a ring ---------------

  /** The address test of an enqueue, in the source's 32-bit arithmetic. */
  predicate AddressesAdmit(ioBuffer: nat, nextIoBuffer: nat, memLen: nat) {
    var end := (ioBuffer + memLen) % WORD;
    !(end >= ETH_RX_RING || nextIoBuffer <= end)
  }

  const LOCKED: nat := 0xFF

  /** Whether an enqueue of memLen bytes is accepted. */
  predicate Admits(descs: seq<Desc>, head: nat, depth: nat, tail: nat, memLen: nat)
    requires depth <= |descs|
  {
    && tail < depth && tail != LOCKED
    && var next := descs[tail].next;
       head <= next && (next - head) / DESC_SIZE < |descs|
       && AddressesAdmit(descs[tail].buffer, descs[(next - head) / DESC_SIZE].buffer, memLen)
  }

  /** Where the end of the copy wraps past the top of the address space. */
  predicate Wraps(ioBuffer: nat, memLen: nat) { ioBuffer + memLen >= WORD }

  lemma RingNext(descs: seq<Desc>, head: nat, ioHead: nat, chunk: nat, n: nat, tail: nat)
    requires Linked(descs, head, ioHead, chunk, n) && tail < n
    ensures head <= descs[tail].next && (descs[tail].next - head) / DESC_SIZE == Next(tail, n)
  {
  }

  /** On a built ring whose area ends below the receive ring, an enqueue is accepted
      exactly when the queue is unlocked, the slot is not the last one and the frame is
      shorter than a chunk -- or when the 32-bit end address wraps and lands below the
      next buffer, which only a length of gigabytes can do. */
  lemma AdmitsExactly(descs: seq<Desc>, head: nat, ioHead: nat, chunk: nat, n: nat, tail: nat, memLen: nat)
    requires Linked(descs, head, ioHead, chunk, n) && chunk >= 1 && n < LOCKED
    requires ioHead + n * chunk <= ETH_RX_RING && memLen < WORD
    requires tail <= n || tail == LOCKED
    ensures Admits(descs, head, n, tail, memLen) <==>
      && tail < n
      && var io := BufferAddr(ioHead, chunk, tail);
         if Wraps(io, memLen) then io + memLen - WORD < BufferAddr(ioHead, chunk, Next(tail, n))
         else tail < n - 1 && memLen < chunk
  {
    if tail < n {
      RingNext(descs, head, ioHead, chunk, n, tail);
      MulMono(tail, n, chunk);
      if tail + 1 < n {
        BufferStep(ioHead, chunk, tail);
        MulMono(tail + 1, n, chunk);
      }
      AdmitNumbers(BufferAddr(ioHead, chunk, tail), BufferAddr(ioHead, chunk, Next(tail, n)), chunk, memLen,
                   tail + 1 == n);
    }
  }

  /** The same over plain numbers: the next buffer is one chunk on, or, for the last, not ahead. */
  lemma AdmitNumbers(io: nat, next: nat, chunk: nat, memLen: nat, last: bool)
    requires io + chunk <= ETH_RX_RING && memLen < WORD && if last then next <= io else next == io + chunk
    ensures AddressesAdmit(io, next, memLen)
      <==> if Wraps(io, memLen) then io + memLen - WORD < next else !last && memLen < chunk
  {
    if Wraps(io, memLen) {
      assert (io + memLen) % WORD == io + memLen - WORD;
    } else {
      assert (io + memLen) % WORD == io + memLen;
    }
  }

  /** From no buffer below the receive ring does a copy of so many bytes, almost 2 GiB, wrap. */
  const NO_WRAP: nat := WORD - ETH_RX_RING - 1

  /** For every length that cannot wrap, so for all that a 16-bit packet buffer can have, the
      test is exact and an accepted copy stays inside its own slot. */
  lemma AdmittedCopyStaysInSlot(descs: seq<Desc>, head: nat, ioHead: nat, chunk: nat, n: nat, tail: nat, memLen: nat)
    requires Linked(descs, head, ioHead, chunk, n) && chunk >= 1 && n < LOCKED
    requires ioHead + n * chunk <= ETH_RX_RING && memLen <= NO_WRAP
    requires tail <= n || tail == LOCKED
    ensures Admits(descs, head, n, tail, memLen) <==> tail < n - 1 && memLen < chunk
    ensures Admits(descs, head, n, tail, memLen) ==>
      forall a: nat :: descs[tail].buffer <= a < descs[tail].buffer + memLen ==> InBuffer(a, ioHead, chunk, tail)
  {
    AdmitsExactly(descs, head, ioHead, chunk, n, tail, memLen);
    if tail < n { MulMono(tail, n, chunk); }
  }

  /** The escape is real: 2 GiB is "accepted" into the first 1536-byte slot of the transmit ring. */
  lemma WrappingLengthIsAdmitted(descs: seq<Desc>)
    requires Linked(descs, ETH_TX_RING, ETH_TX_IO, MTU, ETH_BDS)
    ensures Admits(descs, ETH_TX_RING, ETH_BDS, 0, 0x8000_0000)
  {
    AdmitsExactly(descs, ETH_TX_RING, ETH_TX_IO, MTU, ETH_BDS, 0, 0x8000_0000);
  }

  /** The driver's own areas: each ring and each buffer area lies in its reserved
      space, and no two of them overlap. */
  lemma AreasDisjoint()
    ensures SOUND_IO + IO_BUFFER_SIZE <= ETH_RX_IO
    ensures ETH_RX_IO + ETH_BDS * MTU <= ETH_TX_IO && ETH_TX_IO + ETH_BDS * MTU <= SOUND_RING
    ensures DescAddr(SOUND_RING, SOUND_BDS) <= ETH_RX_RING
    ensures DescAddr(ETH_RX_RING, ETH_BDS) <= ETH_TX_RING
  {
  }
}
