/** The Ethernet receive queue: a cyclic DMA ring filled by the engine, advanced by
    its interrupt handler and drained by the network service.

    Environment: the engine completes a frame and its interrupt handler runs before the
    engine touches the next descriptor (`FrameDone`), a frame is at most MTU bytes, and
    the ring is set up again only with the engine stopped. */
module EthRx {
  import opened Common
  import opened Ledger
  import opened DropOldest
  import opened MemoryMap

  /** A descriptor's status together with its buffer. */
  datatype Slot = Slot(cmplt: bool, transLen: nat, bytes: seq<Byte>)

  datatype Fate = Delivered | Dropped | Discarded

  /** In `ring`, `put` is eth_rxhead and `take` is eth_rxtail; `dma` is the engine's
      current slot. The last three fields are history. */
  datatype Rx = Rx(ring: Ring<Slot>, dma: nat, rxcount: nat, lostcount: nat, busErr: bool,
                   received: seq<Frame>, fates: seq<Fate>, delivered: seq<Frame>)

  predicate Sized(r: Ring<Slot>) {
    && Valid(r) && |r.cells| == ETH_BDS
    && forall i :: 0 <= i < ETH_BDS ==> r.cells[i].transLen <= |r.cells[i].bytes| == MTU
  }

  predicate Shaped(s: Rx) { Sized(s.ring) && s.dma < ETH_BDS }

  /** Number of queued frames. */
  function Queued(s: Rx): nat requires Shaped(s) { |Contents(s.ring)| }

  /** The slot holds exactly this frame, complete. */
  predicate Holds(slot: Slot, f: Frame) {
    slot.cmplt && slot.transLen == |f| <= |slot.bytes| && slot.bytes[..|f|] == f
  }

  // ---- steps ------------------------------------------------------------

  /** The engine writes part of a frame into the buffer of its current slot. */
  function Scribble(s: Rx, bytes: seq<Byte>): Rx
    requires Shaped(s) && |bytes| == MTU
  {
    var slot := s.ring.cells[s.dma].(bytes := bytes);
    s.(ring := s.ring.(cells := s.ring.cells[s.dma := slot]))
  }

  /** The engine finishes a frame and moves on to the next descriptor. */
  function EngineDone(s: Rx, f: Frame): (s': Rx)
    requires Shaped(s) && |f| <= MTU
    ensures Shaped(s')
  {
    var slot := Slot(true, |f|, f + s.ring.cells[s.dma].bytes[|f|..]);
    s.(ring := s.ring.(cells := s.ring.cells[s.dma := slot]), dma := Next(s.dma, ETH_BDS),
       received := s.received + [f])
  }

  /** The head and tail update of `ethdma_queue`. */
  function Advance(r: Ring<Slot>): Ring<Slot>
    requires Valid(r)
  {
    var n := |r.cells|;
    r.(put := Next(r.put, n), take := if Next(r.put, n) == r.take then Next(r.take, n) else r.take)
  }

  predicate Full(r: Ring<Slot>) requires Valid(r) { Next(r.put, |r.cells|) == r.take }

  /** The receive interrupt handler for an interrupt-on-completion. */
  function OnIrq(s: Rx): Rx
    requires Shaped(s)
  {
    s.(ring := Advance(s.ring), rxcount := (s.rxcount + 1) % WORD,
       lostcount := if Full(s.ring) then (s.lostcount + 1) % WORD else s.lostcount,
       busErr := false, fates := s.fates + if Full(s.ring) then [Dropped] else [])
  }

  function FrameDone(s: Rx, f: Frame): Rx
    requires Shaped(s) && |f| <= MTU
  {
    OnIrq(EngineDone(s, f))
  }

  /** Whether a consume call with a buffer of memLen bytes gets a frame. */
  predicate Ready(s: Rx, memLen: nat) requires Shaped(s) {
    var slot := s.ring.cells[s.ring.take];
    s.ring.put != s.ring.take && slot.cmplt && slot.transLen <= memLen
  }

  function Consume(s: Rx, memLen: nat): Rx
    requires Shaped(s)
  {
    if !Ready(s, memLen) then s else
      var t := s.ring.take;
      var slot := s.ring.cells[t];
      s.(ring := Ring(s.ring.cells[t := Slot(false, 0, slot.bytes)], Next(t, ETH_BDS), s.ring.put),
         fates := s.fates + [Delivered],
         delivered := s.delivered + [slot.bytes[..slot.transLen]])
  }

  /** Setting the cyclic ring up again; `allowed` is the engine-halted test. */
  function Reset(s: Rx, allowed: bool): Rx
    requires Shaped(s)
  {
    if !allowed then s else
      s.(ring := Ring(seq(ETH_BDS, i requires 0 <= i < ETH_BDS => Slot(false, 0, s.ring.cells[i].bytes)), 0, 0),
         dma := 0, busErr := false,
         fates := s.fates + seq(Queued(s), _ => Discarded))
  }

  // ---- the invariant ----------------------------------------------------

  /** The ring's queued slots hold exactly these frames, oldest first. */
  predicate Stocked(r: Ring<Slot>, frames: seq<Frame>) requires Valid(r) {
    |Contents(r)| == |frames| && forall j :: 0 <= j < |frames| ==> Holds(Contents(r)[j], frames[j])
  }

  predicate Counted(s: Rx) {
    && s.rxcount == |s.received| % WORD
    && s.lostcount == Tally(s.fates, {Dropped}) % WORD
  }

  /** Frames that have not met their fate. */
  function Waiting(s: Rx): seq<Frame> requires |s.fates| <= |s.received| { s.received[|s.fates|..] }

  /** Every frame is accounted for: the oldest were delivered in order, dropped or
      discarded, the rest sit complete in the queued slots, and the engine is elsewhere. */
  predicate Inv(s: Rx) {
    && Shaped(s) && Counted(s) && s.dma == s.ring.put
    && (forall i :: 0 <= i < |s.received| ==> |s.received[i]| <= MTU)
    && |s.fates| <= |s.received|
    && Stocked(s.ring, Waiting(s))
    && s.delivered == Select(s.received, s.fates, {Delivered})
  }

  /** Writing outside the queued range disturbs no queued frame. */
  lemma WriteElsewhere(r: Ring<Slot>, x: Slot)
    requires Valid(r)
    ensures Contents(r.(cells := r.cells[r.put := x])) == Contents(r)
  {
  }

  lemma StoreStocked(r: Ring<Slot>, frames: seq<Frame>, x: Slot, f: Frame)
    requires Valid(r) && Stocked(r, frames) && Holds(x, f)
    ensures Valid(Store(r, x)) && Stocked(Store(r, x), Offer(frames, f, |r.cells|))
  {
    StoreRefines(r, x);
  }

  lemma RemoveStocked(r: Ring<Slot>, frames: seq<Frame>, x: Slot)
    requires Valid(r) && Stocked(r, frames) && frames != []
    ensures Holds(r.cells[r.take], frames[0])
    ensures var r' := Ring(r.cells[r.take := x], Next(r.take, |r.cells|), r.put);
      Valid(r') && Stocked(r', frames[1..])
  {
    var r' := Ring(r.cells[r.take := x], Next(r.take, |r.cells|), r.put);
    assert r.cells[r.take] == Contents(r)[0];
    assert Contents(r') == Contents(r)[1..];
  }

  lemma AdvanceIsStore(r: Ring<Slot>, x: Slot)
    requires Valid(r)
    ensures Advance(r.(cells := r.cells[r.put := x])) == Store(r, x)
    ensures Full(r) <==> |Contents(r)| == |r.cells| - 1
  {
    ContentsAt(r);
  }

  /** The engine writing into its current slot disturbs no queued frame. */
  lemma ScribbleKeeps(s: Rx, bytes: seq<Byte>)
    requires Inv(s) && |bytes| == MTU
    ensures Inv(Scribble(s, bytes)) && Contents(Scribble(s, bytes).ring) == Contents(s.ring)
  {
    WriteElsewhere(s.ring, s.ring.cells[s.dma].(bytes := bytes));
  }

  /** A new frame is offered to the queue; when the queue is full it is the oldest frame
      that is dropped. */
  lemma FrameDoneKeeps(s: Rx, f: Frame)
    requires Inv(s) && |f| <= MTU
    ensures Inv(FrameDone(s, f))
    ensures var s' := FrameDone(s, f);
      && Waiting(s') == Offer(Waiting(s), f, ETH_BDS)
      && s'.fates == s.fates + if Queued(s) == ETH_BDS - 1 then [Dropped] else []
  {
    assert Shaped(s) && Queued(s) == |Waiting(s)|;
    hide *;
    RingOfArrival(s, f);
    BooksOfArrival(s, f);
    ArrivalAccounted(s, FrameDone(s, f), f, Queued(s) == ETH_BDS - 1);
  }

  /** Ring and history together, whatever produced the new state. */
  lemma ArrivalAccounted(s: Rx, s': Rx, f: Frame, full: bool)
    requires Inv(s) && |f| <= MTU && (full <==> |Waiting(s)| >= ETH_BDS - 1)
    requires Shaped(s') && s'.dma == s'.ring.put && Stocked(s'.ring, Offer(Waiting(s), f, ETH_BDS))
    requires s'.received == s.received + [f] && s'.fates == s.fates + (if full then [Dropped] else [])
    requires s'.delivered == s.delivered && s'.rxcount == (s.rxcount + 1) % WORD
    requires s'.lostcount == if full then (s.lostcount + 1) % WORD else s.lostcount
    ensures Inv(s') && Waiting(s') == Offer(Waiting(s), f, ETH_BDS)
  {
    FateOfArrival(s, f, full);
    CountArrival(s, s', f, full);
  }

  lemma CountArrival(s: Rx, s': Rx, f: Frame, full: bool)
    requires Counted(s)
    requires s'.received == s.received + [f] && s'.rxcount == (s.rxcount + 1) % WORD
    requires s'.lostcount == if full then (s.lostcount + 1) % WORD else s.lostcount
    requires Tally(s'.fates, {Dropped}) == Tally(s.fates, {Dropped}) + if full then 1 else 0
    ensures Counted(s')
  {
    WrapNext(|s.received|);
    WrapNext(Tally(s.fates, {Dropped}));
  }

  lemma WrapNext(a: nat)
    ensures (a % WORD + 1) % WORD == (a + 1) % WORD
  {
  }

  /** The ring side of an arrival. */
  lemma RingOfArrival(s: Rx, f: Frame)
    requires Inv(s) && |f| <= MTU
    ensures var s' := FrameDone(s, f);
      && Shaped(s') && s'.dma == s'.ring.put
      && Stocked(s'.ring, Offer(Waiting(s), f, ETH_BDS))
      && (Full(s.ring) <==> Queued(s) == ETH_BDS - 1) && Queued(s) < ETH_BDS
  {
    var x := Slot(true, |f|, f + s.ring.cells[s.dma].bytes[|f|..]);
    AdvanceIsStore(s.ring, x);
    StoreStocked(s.ring, Waiting(s), x, f);
    ContentsAt(s.ring);
  }

  lemma BooksOfArrival(s: Rx, f: Frame)
    requires Shaped(s) && |f| <= MTU
    ensures var s', full := FrameDone(s, f), Full(s.ring);
      && s'.received == s.received + [f] && s'.fates == s.fates + (if full then [Dropped] else [])
      && s'.delivered == s.delivered && s'.rxcount == (s.rxcount + 1) % WORD
      && s'.lostcount == if full then (s.lostcount + 1) % WORD else s.lostcount
  {
  }

  /** The history side of an arrival. */
  lemma FateOfArrival(s: Rx, f: Frame, full: bool)
    requires |s.fates| <= |s.received| && Counted(s) && s.delivered == Select(s.received, s.fates, {Delivered})
    requires full ==> |s.fates| < |s.received|
    ensures var received, fates := s.received + [f], s.fates + if full then [Dropped] else [];
      && s.delivered == Select(received, fates, {Delivered})
      && Tally(fates, {Dropped}) == Tally(s.fates, {Dropped}) + (if full then 1 else 0)
      && received[|fates|..] == (if full then Waiting(s)[1..] else Waiting(s)) + [f]
  {
    SelectGrow(s.received, [f], s.fates, {Delivered});
    if full {
      SelectOne(s.received + [f], s.fates, Dropped, {Delivered});
      TallyOne(s.fates, Dropped, {Dropped});
    } else {
      assert s.fates + [] == s.fates;
    }
  }

  /** A successful consume delivers the oldest queued frame, byte for byte. */
  lemma ConsumeKeeps(s: Rx, memLen: nat)
    requires Inv(s)
    ensures Inv(Consume(s, memLen))
    ensures Ready(s, memLen) <==> Waiting(s) != [] && |Waiting(s)[0]| <= memLen
    ensures Ready(s, memLen) ==>
      && Consume(s, memLen).delivered == s.delivered + [Waiting(s)[0]]
      && Waiting(Consume(s, memLen)) == Waiting(s)[1..]
  {
    ContentsAt(s.ring);
    if Waiting(s) != [] {
      RemoveStocked(s.ring, Waiting(s), Slot(false, 0, s.ring.cells[s.ring.take].bytes));
      if Ready(s, memLen) {
        ConsumeAccounted(s, Consume(s, memLen));
      }
    }
  }

  lemma ConsumeAccounted(s: Rx, s': Rx)
    requires Inv(s) && Waiting(s) != [] && Shaped(s') && s'.dma == s'.ring.put
    requires Stocked(s'.ring, Waiting(s)[1..])
    requires s' == s.(ring := s'.ring, fates := s.fates + [Delivered], delivered := s.delivered + [Waiting(s)[0]])
    ensures Inv(s') && Waiting(s') == Waiting(s)[1..]
  {
    SelectOne(s.received, s.fates, Delivered, {Delivered});
    TallyOne(s.fates, Delivered, {Dropped});
  }

  /** A full-size buffer always gets the oldest frame. */
  lemma TakeOldest(s: Rx)
    requires Inv(s) && Queued(s) > 0
    ensures Ready(s, MTU) && Inv(Consume(s, MTU)) && Queued(Consume(s, MTU)) == Queued(s) - 1
    ensures Consume(s, MTU).delivered == s.delivered + [Waiting(s)[0]]
    ensures Waiting(s) == [Waiting(s)[0]] + Waiting(Consume(s, MTU))
  {
    ConsumeKeeps(s, MTU);
    assert |s.received[|s.fates|]| <= MTU;
    assert Queued(Consume(s, MTU)) == |Waiting(Consume(s, MTU))| && Queued(s) == |Waiting(s)|;
    hide Inv, Queued, Consume;
  }

  /** Setting up again loses exactly the queued frames. */
  lemma ResetKeeps(s: Rx, allowed: bool)
    requires Inv(s)
    ensures Inv(Reset(s, allowed))
    ensures allowed ==> Queued(Reset(s, allowed)) == 0
    ensures Reset(s, allowed).fates == s.fates + if allowed then seq(|Waiting(s)|, _ => Discarded) else []
    ensures Reset(s, allowed).received == s.received && Reset(s, allowed).delivered == s.delivered
  {
    if allowed {
      SelectBlock(s.received, s.fates, Queued(s), Discarded, {Delivered});
      TallyBlock(s.fates, Queued(s), Discarded, {Dropped});
    }
  }

  // ---- whole runs -------------------------------------------------------

  datatype Step =
    | Engine(bytes: seq<Byte>)
    | Arrive(frame: Frame)
    | Take(memLen: nat)
    | Setup(allowed: bool)

  predicate Possible(st: Step) {
    (st.Engine? ==> |st.bytes| == MTU) && (st.Arrive? ==> |st.frame| <= MTU)
  }

  function Do(s: Rx, st: Step): Rx
    requires Inv(s) && Possible(st)
  {
    match st
    case Engine(bytes) => Scribble(s, bytes)
    case Arrive(frame) => FrameDone(s, frame)
    case Take(memLen) => Consume(s, memLen)
    case Setup(allowed) => Reset(s, allowed)
  }

  lemma DoKeeps(s: Rx, st: Step)
    requires Inv(s) && Possible(st)
    ensures Inv(Do(s, st))
  {
    match st
    case Engine(bytes) => ScribbleKeeps(s, bytes);
    case Arrive(frame) => FrameDoneKeeps(s, frame);
    case Take(memLen) => ConsumeKeeps(s, memLen);
    case Setup(allowed) => ResetKeeps(s, allowed);
  }

  /** Every run of engine, interrupt, consumer and set-up steps keeps the accounting. */
  function Run(s: Rx, steps: seq<Step>): (s': Rx)
    requires Inv(s) && forall st :: st in steps ==> Possible(st)
    ensures Inv(s')
    decreases |steps|
  {
    if steps == [] then s else
      DoKeeps(s, steps[0]);
      Run(Do(s, steps[0]), steps[1..])
  }

  /** After the driver start and the first set-up: any buffer contents, nothing queued. */
  function Boot(buffers: seq<seq<Byte>>): Rx
    requires |buffers| == ETH_BDS && forall b :: b in buffers ==> |b| == MTU
  {
    Rx(Ring(seq(ETH_BDS, i requires 0 <= i < ETH_BDS => Slot(false, 0, buffers[i])), 0, 0), 0, 0, 0, false, [], [], [])
  }

  // ---- descriptors handed back to the engine ----------------------------

  predicate Blank(slot: Slot) { !slot.cmplt && slot.transLen == 0 }

  /** Every free slot has its status cleared, ready for the engine to use again, but for the
      one the engine is at: after a drop that is the dropped frame's, still marked complete. */
  predicate Cleared(s: Rx) requires Shaped(s) {
    forall j :: Queued(s) < j < ETH_BDS ==> Blank(s.ring.cells[Place(s.ring, j)])
  }

  lemma ArriveClears(s: Rx, f: Frame)
    requires Shaped(s) && s.dma == s.ring.put && Cleared(s) && |f| <= MTU
    ensures Cleared(FrameDone(s, f))
  {
    ContentsAt(s.ring);
    var x := Slot(true, |f|, f + s.ring.cells[s.dma].bytes[|f|..]);
    AdvanceIsStore(s.ring, x);
    var r, r', q := s.ring, Store(s.ring, x), Queued(s);
    assert FrameDone(s, f).ring == r';
    ContentsAt(r');
    hide FrameDone, Contents;
    if q < ETH_BDS - 1 {
      forall j | q + 1 < j < ETH_BDS ensures Blank(r'.cells[Place(r', j)]) {
        assert Place(r', j) == Place(r, j) != r.put;
      }
    }
  }

  lemma ConsumeClears(s: Rx, memLen: nat)
    requires Shaped(s) && Cleared(s)
    ensures Cleared(Consume(s, memLen))
  {
    if Ready(s, memLen) {
      var s', q := Consume(s, memLen), Queued(s);
      forall j | q - 1 < j < ETH_BDS ensures Blank(s'.ring.cells[Place(s'.ring, j)]) {
        if j == ETH_BDS - 1 {
          assert Place(s'.ring, j) == s.ring.take;
        } else {
          assert Place(s'.ring, j) == Place(s.ring, j + 1) != s.ring.take;
        }
      }
    }
  }

  lemma ScribbleClears(s: Rx, bytes: seq<Byte>)
    requires Shaped(s) && Cleared(s) && |bytes| == MTU
    ensures Cleared(Scribble(s, bytes))
  {
    var s' := Scribble(s, bytes);
    ContentsAt(s.ring);
    ContentsAt(s'.ring);
    forall j | Queued(s) < j < ETH_BDS ensures Blank(s'.ring.cells[Place(s'.ring, j)]) {
      assert Blank(s.ring.cells[Place(s.ring, j)]);
    }
  }

  lemma DoClears(s: Rx, st: Step)
    requires Inv(s) && Possible(st) && Cleared(s)
    ensures Shaped(Do(s, st)) && Cleared(Do(s, st))
  {
    DoKeeps(s, st);
    match st
    case Engine(bytes) => ScribbleClears(s, bytes);
    case Arrive(frame) => ArriveClears(s, frame);
    case Take(memLen) => ConsumeClears(s, memLen);
    case Setup(allowed) =>
  }

  /** In every run from boot the engine never comes to a free slot with a stale status, except
      the one it has just taken from the queue by a drop. */
  lemma FreeSlotsCleared(buffers: seq<seq<Byte>>, steps: seq<Step>)
    requires |buffers| == ETH_BDS && (forall b :: b in buffers ==> |b| == MTU)
    requires forall st :: st in steps ==> Possible(st)
    ensures Inv(Boot(buffers)) && Shaped(Run(Boot(buffers), steps)) && Cleared(Run(Boot(buffers), steps))
  {
    BootInv(buffers);
    RunClears(Boot(buffers), steps);
  }

  lemma {:induction false} RunClears(s: Rx, steps: seq<Step>)
    requires Inv(s) && Cleared(s) && forall st :: st in steps ==> Possible(st)
    ensures Shaped(Run(s, steps)) && Cleared(Run(s, steps))
    decreases |steps|
  {
    assert Shaped(s);
    hide Inv, Do, Cleared;
    if steps == [] {
    } else {
      DoKeeps(s, steps[0]);
      DoClears(s, steps[0]);
      RunClears(Do(s, steps[0]), steps[1..]);
    }
  }

  /** A completion and a successful set-up clear the bus error flag; nothing else touches it. */
  lemma ErrorFlag(s: Rx, st: Step)
    requires Inv(s) && Possible(st)
    ensures Do(s, st).busErr == (s.busErr && !st.Arrive? && st != Setup(true))
  {
    hide Inv, Counted, Stocked, Contents;
  }

  /** The frames that arrive in a run. */
  function Arrived(steps: seq<Step>): seq<Frame> {
    if steps == [] then [] else (if steps[0].Arrive? then [steps[0].frame] else []) + Arrived(steps[1..])
  }

  lemma DoReceives(s: Rx, st: Step)
    requires Inv(s) && Possible(st)
    ensures Do(s, st).received == s.received + if st.Arrive? then [st.frame] else []
  {
    hide Inv, Counted, Stocked, Contents;
  }

  lemma {:induction false} RunReceives(s: Rx, steps: seq<Step>)
    requires Inv(s) && forall st :: st in steps ==> Possible(st)
    ensures Run(s, steps).received == s.received + Arrived(steps)
    decreases |steps|
  {
    hide Inv, Do;
    if steps == [] {
      assert s.received + [] == s.received;
    } else {
      DoKeeps(s, steps[0]);
      DoReceives(s, steps[0]);
      RunReceives(Do(s, steps[0]), steps[1..]);
      Regroup(s.received, if steps[0].Arrive? then [steps[0].frame] else [], Arrived(steps[1..]));
    }
  }

  lemma Regroup<T>(a: seq<T>, b: seq<T>, c: seq<T>)
    ensures (a + b) + c == a + (b + c)
  {
  }

  /** eth_rxqcount, in unsigned 32-bit arithmetic. */
  function QCount(head: nat, tail: nat): nat {
    (((head - tail) % WORD + ETH_BDS) % WORD) % ETH_BDS
  }

  /** Slots from one index up to another, round the ring. */
  function Between(take: nat, put: nat): int { if take <= put then put - take else put - take + ETH_BDS }

  lemma QueuedIsBetween(s: Rx)
    requires Shaped(s)
    ensures Queued(s) == Between(s.ring.take, s.ring.put)
  {
  }

  lemma QCountIsBetween(head: nat, tail: nat)
    requires head < ETH_BDS && tail < ETH_BDS
    ensures QCount(head, tail) == Between(tail, head)
  {
    var d := head - tail;
    if d < 0 {
      assert d % WORD == d + WORD;
      assert (d + WORD + ETH_BDS) % WORD == d + ETH_BDS;
    } else {
      assert d % WORD == d && (d + ETH_BDS) % WORD == d + ETH_BDS;
    }
  }

  lemma QCountIsQueued(s: Rx)
    requires Shaped(s)
    ensures QCount(s.ring.put, s.ring.take) == Queued(s)
  {
    QueuedIsBetween(s);
    QCountIsBetween(s.ring.put, s.ring.take);
  }

  /** What the invariant says of the counters. */
  lemma CountersAddUp(s: Rx)
    requires Inv(s)
    ensures s.rxcount == (|s.delivered| + Tally(s.fates, {Dropped})
                          + QCount(s.ring.put, s.ring.take) + Tally(s.fates, {Discarded})) % WORD
  {
    QCountIsQueued(s);
    SelectLength(s.received, s.fates, {Delivered});
    FatesAddUp(s.fates);
  }

  lemma FatesAddUp(fates: seq<Fate>)
    ensures Tally(fates, {Delivered}) + Tally(fates, {Dropped}) + Tally(fates, {Discarded}) == |fates|
  {
    TallyUnion(fates, {Delivered}, {Dropped});
    TallyUnion(fates, {Delivered} + {Dropped}, {Discarded});
    forall f: Fate ensures f in {Delivered} + {Dropped} + {Discarded} {
      match f { case Delivered => case Dropped => case Discarded => }
    }
    TallyAll(fates, {Delivered} + {Dropped} + {Discarded});
  }

  /** What it says of the frames. */
  lemma FramesAccounted(s: Rx)
    requires Inv(s)
    ensures Shaped(s) && s.lostcount == Tally(s.fates, {Dropped}) % WORD && |s.fates| <= |s.received|
    ensures s.delivered == Select(s.received, s.fates, {Delivered}) && Stocked(s.ring, Waiting(s))
    ensures forall j :: 0 <= j < Queued(s) ==> Place(s.ring, j) != s.dma
  {
    ContentsAt(s.ring);
  }

  lemma BootInv(buffers: seq<seq<Byte>>)
    requires |buffers| == ETH_BDS && forall b :: b in buffers ==> |b| == MTU
    ensures Inv(Boot(buffers)) && Boot(buffers).received == []
  {
  }

  /** What the counters and the queue say after any run from boot: received frames are
      delivered, lost, still queued or discarded by a set-up, counted modulo 2^32. */
  lemma Conservation(buffers: seq<seq<Byte>>, steps: seq<Step>)
    requires |buffers| == ETH_BDS && (forall b :: b in buffers ==> |b| == MTU)
    requires forall st :: st in steps ==> Possible(st)
    ensures Inv(Boot(buffers))
    ensures var s := Run(Boot(buffers), steps);
      && s.received == Arrived(steps)
      && s.rxcount == (|s.delivered| + Tally(s.fates, {Dropped})
                       + QCount(s.ring.put, s.ring.take) + Tally(s.fates, {Discarded})) % WORD
      && s.lostcount == Tally(s.fates, {Dropped}) % WORD && |s.fates| <= |s.received|
      && s.delivered == Select(s.received, s.fates, {Delivered})
      && Shaped(s) && Stocked(s.ring, Waiting(s))
      && (forall j :: 0 <= j < Queued(s) ==> Place(s.ring, j) != s.dma)
  {
    hide *;
    BootInv(buffers);
    var s := Run(Boot(buffers), steps);
    RunReceives(Boot(buffers), steps);
    assert [] + Arrived(steps) == Arrived(steps);
    CountersAddUp(s);
    FramesAccounted(s);
  }

  // ---- draining under fire ----------------------------------------------

  function ArriveAll(s: Rx, frames: seq<Frame>): (s': Rx)
    requires Inv(s) && forall f :: f in frames ==> |f| <= MTU
    ensures Inv(s') && Queued(s') >= Queued(s) && s'.delivered == s.delivered
    decreases |frames|
  {
    if frames == [] then s else
      FrameDoneKeeps(s, frames[0]);
      ContentsAt(s.ring);
      ArriveAll(FrameDone(s, frames[0]), frames[1..])
  }

  /** The service's loop: in each round some frames arrive, then one is consumed. */
  function Drain(s: Rx, rounds: seq<seq<Frame>>): (s': Rx)
    requires Inv(s) && forall fs, f :: fs in rounds && f in fs ==> |f| <= MTU
    ensures Inv(s')
    decreases |rounds|
  {
    if rounds == [] then s else
      assert rounds[0] in rounds;
      var s1 := ArriveAll(s, rounds[0]);
      ConsumeKeeps(s1, MTU);
      Drain(Consume(s1, MTU), rounds[1..])
  }

  /** However many frames arrive meanwhile, and however many are dropped, a service call
      that sampled q queued frames gets q frames: its loop never ends early. */
  lemma {:induction false} DrainGetsSampledCount(s: Rx, rounds: seq<seq<Frame>>)
    requires Inv(s) && forall fs, f :: fs in rounds && f in fs ==> |f| <= MTU
    requires |rounds| <= Queued(s)
    ensures |Drain(s, rounds).delivered| == |s.delivered| + |rounds|
    decreases |rounds|
  {
    if rounds == [] {
    } else {
      assert rounds[0] in rounds;
      var s1 := ArriveAll(s, rounds[0]);
      ConsumeKeeps(s1, MTU);
      DrainGetsSampledCount(Consume(s1, MTU), rounds[1..]);
    }
  }
}
