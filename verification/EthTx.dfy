/** The Ethernet transmit queue: the network code fills slots, a flush locks the queue
    and starts the engine, and the completion interrupt unlocks it again.

    The main thread runs one call at a time; engine and interrupt steps land between any
    two of its instructions. Environment: the completion interrupt fires once per flush,
    when the engine has fetched every descriptor; the ring is set up again only with the
    engine stopped; a frame's length fits the 16 bits of a packet buffer. */
module EthTx {
  import opened Common
  import opened Ledger
  import opened MemoryMap
  import opened SgRing

  /** A descriptor's length field together with its buffer. */
  datatype TxSlot = TxSlot(bufferLen: nat, bytes: seq<Byte>)

  /** `Sent` frames were confirmed by an interrupt; the others were cut off by a set-up,
      after or before the engine fetched them. */
  datatype Fate = Sent | CutSent | CutUnsent

  /** Where the main thread stands, with its locals. */
  datatype Pc =
    | Idle
    | EnqCheck(f: Frame, t: nat)
    | EnqCopy(f: Frame, t: nat, done: nat)
    | EnqLen(f: Frame, t: nat)
    | EnqInc(f: Frame, t: nat)
    | EnqStore(f: Frame, t: nat, r: nat)
    | FlushCheck(t: nat)
    | FlushRead(t: nat)
    | FlushPkts(t: nat, r: nat)
    | FlushLock(t: nat)
    | FlushStart(t: nat)

  /** Driver fields, engine (`inflight`, its last descriptor `limit`, its progress
      `fetched`), main thread, and the histories of accepted and fetched frames. */
  datatype Tx = Tx(tail: nat, pkts: nat, depth: nat, txcount: nat, slots: seq<TxSlot>,
                   inflight: bool, limit: nat, fetched: nat, pc: Pc,
                   accepted: seq<Frame>, fates: seq<Fate>, wire: seq<Frame>)

  predicate Locked(m: Tx) { m.tail == LOCKED }

  /** Accepted frames that have not met their fate. */
  function Pending(m: Tx): nat { if Locked(m) then m.pkts else m.tail }

  /** The two rejections of an enqueue, on the tail value it read. */
  predicate Refused(m: Tx, t: nat, len: nat) {
    t == m.depth || t == LOCKED || t >= ETH_BDS ||
    !AddressesAdmit(BufferAddr(ETH_TX_IO, MTU, t), BufferAddr(ETH_TX_IO, MTU, Next(t, ETH_BDS)), len)
  }

  predicate Carries(slot: TxSlot, f: Frame) {
    slot.bufferLen == |f| <= |slot.bytes| && slot.bytes[..|f|] == f
  }

  // ---- the invariant ----------------------------------------------------

  predicate Shaped(m: Tx) {
    && |m.slots| == ETH_BDS
    && (forall i :: 0 <= i < ETH_BDS ==> m.slots[i].bufferLen <= |m.slots[i].bytes| == MTU)
    && (m.depth == 0 || m.depth == ETH_BDS)
    && (Locked(m) || m.tail < ETH_BDS) && (m.depth == 0 ==> m.tail == 0)
    && (Locked(m) ==> 1 <= m.pkts < ETH_BDS)
  }

  /** In flight implies locked, and the engine stays within the locked batch. */
  predicate EngineOk(m: Tx) {
    && (m.inflight ==> Locked(m) && m.limit == m.pkts)
    && (!Locked(m) ==> m.fetched == 0) && m.fetched <= Pending(m)
  }

  /** The main thread's view of the tail. Once past its checks, a call owns the queue. */
  predicate PcOk(m: Tx)
    requires Shaped(m)
  {
    match m.pc
    case Idle => true
    case EnqCheck(f, t) => |f| <= NO_WRAP && (t == m.tail || t == LOCKED)
    case EnqCopy(f, t, done) => Filling(m, f, t, done)
    case EnqLen(f, t) => Filling(m, f, t, |f|)
    case EnqInc(f, t) => Filling(m, f, t, |f|) && m.slots[t].bufferLen == |f|
    case EnqStore(f, t, r) => Filling(m, f, t, |f|) && m.slots[t].bufferLen == |f| && r == t
    case FlushCheck(t) => t == m.tail || t == LOCKED
    case FlushRead(t) => 1 <= t == m.tail < ETH_BDS
    case FlushPkts(t, r) => 1 <= t == m.tail < ETH_BDS && r == t
    case FlushLock(t) => 1 <= t == m.tail < ETH_BDS && m.pkts == t
    case FlushStart(t) => Locked(m) && m.pkts == t && !m.inflight && m.fetched == 0
  }

  /** `done` bytes of f have been copied into the free slot t. */
  predicate Filling(m: Tx, f: Frame, t: nat, done: nat)
    requires Shaped(m)
  {
    t == m.tail < ETH_BDS - 1 && done <= |f| < MTU && m.slots[t].bytes[..done] == f[..done]
    && m.depth == ETH_BDS
  }

  /** Every accepted frame is accounted for, in order: the oldest have a fate, the rest
      sit in the first slots; the engine has fetched each frame at most once. */
  predicate Books(m: Tx)
    requires Shaped(m)
  {
    && |m.fates| + Pending(m) == |m.accepted|
    && m.fetched <= Pending(m)
    && (forall j :: 0 <= j < Pending(m) ==> Carries(m.slots[j], m.accepted[|m.fates| + j]))
    && m.wire == Select(m.accepted, m.fates, {Sent, CutSent})
                 + m.accepted[|m.fates|..|m.fates| + m.fetched]
    && m.txcount == Tally(m.fates, {Sent}) % WORD
  }

  predicate Inv(m: Tx) { Shaped(m) && EngineOk(m) && PcOk(m) && Books(m) }

  // ---- steps ------------------------------------------------------------

  datatype TStep =
    | Enqueue(frame: Frame)      // an enqueue call starts: read the tail
    | Flush                      // a flush call starts: read the tail
    | Instr                      // the call's next instruction
    | Fetch                      // the engine reads one descriptor and its buffer
    | Done                       // completion interrupt
    | Stop                       // the recovery code halts the engine
    | Setup(allowed: bool)       // the ring is built again, if the engine is idle

  predicate Enabled(m: Tx, st: TStep) {
    match st
    case Enqueue(f) => m.pc.Idle? && |f| <= NO_WRAP
    case Flush => m.pc.Idle?
    case Instr => !m.pc.Idle?
    case Fetch => m.inflight && m.fetched < m.limit
    case Done => m.inflight && m.fetched == m.limit
    case Stop => m.pc.Idle?
    case Setup(_) => m.pc.Idle? && !m.inflight
  }

  function WriteByte(m: Tx, t: nat, i: nat, b: Byte): Tx
    requires t < |m.slots| && i < |m.slots[t].bytes|
  {
    m.(slots := m.slots[t := m.slots[t].(bytes := m.slots[t].bytes[i := b])])
  }

  function Instruct(m: Tx): Tx
    requires Inv(m) && !m.pc.Idle?
  {
    match m.pc
    case EnqCheck(f, t) => m.(pc := if Refused(m, t, |f|) then Idle else EnqCopy(f, t, 0))
    case EnqCopy(f, t, done) =>
      if done < |f| then WriteByte(m, t, done, f[done]).(pc := EnqCopy(f, t, done + 1))
      else m.(pc := EnqLen(f, t))
    case EnqLen(f, t) => m.(slots := m.slots[t := m.slots[t].(bufferLen := |f|)], pc := EnqInc(f, t))
    case EnqInc(f, t) => m.(pc := EnqStore(f, t, m.tail))
    case EnqStore(f, t, r) => m.(tail := (r + 1) % 256, accepted := m.accepted + [f], pc := Idle)
    case FlushCheck(t) => m.(pc := if t == 0 || t == LOCKED then Idle else FlushRead(t))
    case FlushRead(t) => m.(pc := FlushPkts(t, m.tail))
    case FlushPkts(t, r) => m.(pkts := r, pc := FlushLock(t))
    case FlushLock(t) => m.(tail := LOCKED, pc := FlushStart(t))
    case FlushStart(t) => m.(inflight := true, limit := t, fetched := 0, pc := Idle)
  }

  function Do(m: Tx, st: TStep): Tx
    requires Inv(m) && Enabled(m, st)
  {
    match st
    case Enqueue(f) => m.(pc := EnqCheck(f, m.tail))
    case Flush => m.(pc := FlushCheck(m.tail))
    case Instr => Instruct(m)
    case Fetch =>
      var slot := m.slots[m.fetched];
      m.(wire := m.wire + [slot.bytes[..slot.bufferLen]], fetched := m.fetched + 1)
    case Done =>
      m.(txcount := (m.txcount + m.pkts) % WORD, tail := 0, pkts := 0, inflight := false, fetched := 0,
         fates := m.fates + seq(m.pkts, _ => Sent))
    case Stop => m.(inflight := false)
    case Setup(allowed) =>
      if !allowed then m else
        m.(slots := seq(ETH_BDS, i requires 0 <= i < ETH_BDS => TxSlot(MTU, m.slots[i].bytes)),
           depth := ETH_BDS, tail := 0, fetched := 0,
           fates := m.fates + seq(m.fetched, _ => CutSent) + seq(Pending(m) - m.fetched, _ => CutUnsent))
  }

  // ---- every step keeps the invariant ------------------------------------

  /** On the transmit ring the address test refuses exactly the last slot and oversize frames. */
  lemma RefusedExactly(m: Tx, t: nat, len: nat)
    requires Shaped(m) && len <= NO_WRAP && (t < ETH_BDS || t == LOCKED)
    requires t == m.tail || t == LOCKED
    ensures Refused(m, t, len) <==> m.depth == 0 || t == LOCKED || t == ETH_BDS - 1 || len >= MTU
  {
  }

  lemma CopyStep(m: Tx)
    requires Inv(m) && m.pc.EnqCopy? && m.pc.done < |m.pc.f|
    ensures Inv(Instruct(m))
  {
    var m' := Instruct(m);
    var t, d, f := m.pc.t, m.pc.done, m.pc.f;
    assert m'.slots[t].bytes[..d + 1] == f[..d + 1] by {
      assert m'.slots[t].bytes[..d + 1] == m.slots[t].bytes[..d] + [f[d]];
      assert f[..d + 1] == f[..d] + [f[d]];
    }
  }

  lemma AcceptStep(m: Tx)
    requires Inv(m) && m.pc.EnqStore?
    ensures Inv(Instruct(m)) && Instruct(m).tail == m.tail + 1
  {
    var m', f := Instruct(m), m.pc.f;
    SelectGrow(m.accepted, [f], m.fates, {Sent, CutSent});
    assert f[..|f|] == f;
    assert m'.accepted[|m.fates|..|m.fates|] == m.accepted[|m.fates|..|m.fates|];
  }

  lemma LenStep(m: Tx)
    requires Inv(m) && m.pc.EnqLen?
    ensures Inv(Instruct(m))
  {
    assert forall i :: 0 <= i < ETH_BDS ==> Instruct(m).slots[i].bytes == m.slots[i].bytes;
  }

  lemma CheckStep(m: Tx)
    requires Inv(m) && (m.pc.EnqCheck? || m.pc.EnqInc? || (m.pc.EnqCopy? && m.pc.done == |m.pc.f|))
    ensures Inv(Instruct(m))
  {
    if m.pc.EnqCheck? { RefusedExactly(m, m.pc.t, |m.pc.f|); }
    hide Refused;
    assert Books(Instruct(m)) <==> Books(m);
    hide Books;
  }

  lemma EnqueueKeeps(m: Tx)
    requires Inv(m) && (m.pc.EnqCheck? || m.pc.EnqCopy? || m.pc.EnqLen? || m.pc.EnqInc? || m.pc.EnqStore?)
    ensures Inv(Instruct(m))
  {
    match m.pc
    case EnqCheck(_, _) => CheckStep(m);
    case EnqCopy(f, t, done) => if done < |f| { CopyStep(m); } else { CheckStep(m); }
    case EnqLen(_, _) => LenStep(m);
    case EnqInc(_, _) => CheckStep(m);
    case EnqStore(_, _, _) => AcceptStep(m);
  }

  /** Locking hands the pending count from the tail to the packet count. */
  lemma FlushKeeps(m: Tx)
    requires Inv(m)
    requires m.pc.FlushCheck? || m.pc.FlushRead? || m.pc.FlushPkts? || m.pc.FlushLock? || m.pc.FlushStart?
    ensures Inv(Instruct(m)) && Pending(Instruct(m)) == Pending(m)
  {
  }

  lemma InstrKeeps(m: Tx)
    requires Inv(m) && !m.pc.Idle?
    ensures Inv(Instruct(m))
  {
    if m.pc.EnqCheck? || m.pc.EnqCopy? || m.pc.EnqLen? || m.pc.EnqInc? || m.pc.EnqStore? {
      EnqueueKeeps(m);
    } else {
      FlushKeeps(m);
    }
  }

  lemma FetchKeeps(m: Tx)
    requires Inv(m) && Enabled(m, Fetch)
    ensures Inv(Do(m, Fetch))
    ensures Do(m, Fetch).wire == m.wire + [m.accepted[|m.fates| + m.fetched]]
  {
    var k := |m.fates| + m.fetched;
    assert Carries(m.slots[m.fetched], m.accepted[k]);
    assert m.accepted[|m.fates|..k + 1] == m.accepted[|m.fates|..k] + [m.accepted[k]];
  }

  lemma DoneKeeps(m: Tx)
    requires Inv(m) && Enabled(m, Done)
    ensures Inv(Do(m, Done)) && !Locked(Do(m, Done)) && Pending(Do(m, Done)) == 0
    ensures Tally(Do(m, Done).fates, {Sent}) == Tally(m.fates, {Sent}) + Pending(m)
  {
    var m' := Do(m, Done);
    SelectBlock(m.accepted, m.fates, m.pkts, Sent, {Sent, CutSent});
    TallyBlock(m.fates, m.pkts, Sent, {Sent});
    assert m'.accepted[|m'.fates|..|m'.fates|] == [];
    WrapAdd(Tally(m.fates, {Sent}), m.pkts);
  }

  lemma WrapAdd(a: nat, b: nat)
    ensures (a % WORD + b) % WORD == (a + b) % WORD
  {
  }

  lemma SetupKeeps(m: Tx)
    requires Inv(m) && Enabled(m, Setup(true))
    ensures Inv(Do(m, Setup(true))) && Pending(Do(m, Setup(true))) == 0
    ensures !Locked(Do(m, Setup(true))) && Do(m, Setup(true)).depth == ETH_BDS
    ensures Do(m, Setup(true)).fates
         == m.fates + seq(m.fetched, _ => CutSent) + seq(Pending(m) - m.fetched, _ => CutUnsent)
    ensures Do(m, Setup(true)).accepted == m.accepted && Do(m, Setup(true)).wire == m.wire
  {
    SetupShaped(m);
    SetupBooks(m);
    hide Books, Shaped;
  }

  lemma SetupShaped(m: Tx)
    requires Inv(m) && Enabled(m, Setup(true))
    ensures Shaped(Do(m, Setup(true)))
  {
    hide Books, PcOk;
  }

  lemma SetupBooks(m: Tx)
    requires Inv(m) && Enabled(m, Setup(true)) && Shaped(Do(m, Setup(true)))
    ensures Books(Do(m, Setup(true)))
  {
    CutBooks(m.accepted, m.fates, m.fetched, Pending(m) - m.fetched);
    hide Select, Tally, PcOk;
  }

  /** Closing the books on a batch of which the engine had fetched `a` frames and not `b`. */
  lemma CutBooks(accepted: seq<Frame>, fates: seq<Fate>, a: nat, b: nat)
    requires |fates| + a + b == |accepted|
    ensures var all := fates + seq(a, _ => CutSent) + seq(b, _ => CutUnsent);
      && |all| == |accepted|
      && Select(accepted, all, {Sent, CutSent}) + accepted[|all|..|all|]
         == Select(accepted, fates, {Sent, CutSent}) + accepted[|fates|..|fates| + a]
      && Tally(all, {Sent}) == Tally(fates, {Sent})
  {
    var cut := fates + seq(a, _ => CutSent);
    SelectBlock(accepted, fates, a, CutSent, {Sent, CutSent});
    SelectBlock(accepted, cut, b, CutUnsent, {Sent, CutSent});
    TallyBlock(fates, a, CutSent, {Sent});
    TallyBlock(cut, b, CutUnsent, {Sent});
  }

  /** The first load of a call, and stopping the engine, change nothing that is booked. */
  lemma CallKeeps(m: Tx, st: TStep)
    requires Inv(m) && Enabled(m, st) && (st.Enqueue? || st.Flush? || st.Stop? || st == Setup(false))
    ensures Inv(Do(m, st))
  {
    assert Books(Do(m, st)) <==> Books(m);
    hide Books;
  }

  lemma DoKeeps(m: Tx, st: TStep)
    requires Inv(m) && Enabled(m, st)
    ensures Inv(Do(m, st))
  {
    hide Inv;
    match st
    case Instr => InstrKeeps(m);
    case Fetch => FetchKeeps(m);
    case Done => DoneKeeps(m);
    case Setup(allowed) => if allowed { SetupKeeps(m); } else { CallKeeps(m, st); }
    case _ => CallKeeps(m, st);
  }

  /** Stopping halts the engine for good: it fetches and completes nothing more, and only a
      set-up can follow. That one recovers from every state in which no call is under way:
      what was pending is cut off, and the queue accepts frames again. */
  lemma StopRecovers(m: Tx, f: Frame)
    requires Inv(m) && m.pc.Idle? && |f| < MTU
    ensures var m1 := Do(m, Stop);
      && Inv(m1) && !Enabled(m1, Fetch) && !Enabled(m1, Done) && Enabled(m1, Setup(true))
      && m1.accepted == m.accepted && m1.wire == m.wire && m1.fates == m.fates
    ensures var m2 := Do(Do(m, Stop), Setup(true));
      && Inv(m2) && Accepts(m2, f) && m2.wire == m.wire
      && m2.fates == m.fates + seq(m.fetched, _ => CutSent) + seq(Pending(m) - m.fetched, _ => CutUnsent)
  {
    DoKeeps(m, Stop);
    SetupKeeps(Do(m, Stop));
  }

  /** While a batch is in flight no step writes any descriptor or buffer, and a call that
      is writing has the engine to itself. */
  lemma InFlightUntouched(m: Tx, st: TStep)
    requires Inv(m) && Enabled(m, st) && m.inflight
    ensures Do(m, st).slots == m.slots && Locked(m)
    ensures !m.pc.EnqCopy? && !m.pc.EnqLen?
  {
  }

  // ---- whole runs -------------------------------------------------------

  predicate Runnable(m: Tx, sts: seq<TStep>)
    requires Inv(m)
    decreases |sts|
  {
    sts == [] || (Enabled(m, sts[0]) && (DoKeeps(m, sts[0]); Runnable(Do(m, sts[0]), sts[1..])))
  }

  /** Every interleaving keeps the invariant. */
  function Run(m: Tx, sts: seq<TStep>): (m': Tx)
    requires Inv(m) && Runnable(m, sts)
    ensures Inv(m')
    decreases |sts|
  {
    if sts == [] then m else
      DoKeeps(m, sts[0]);
      Run(Do(m, sts[0]), sts[1..])
  }

  /** After the driver start: nothing set up, any buffer contents. */
  predicate Booted(m: Tx) {
    && |m.slots| == ETH_BDS
    && (forall i :: 0 <= i < ETH_BDS ==> m.slots[i].bufferLen <= |m.slots[i].bytes| == MTU)
    && m == Tx(0, 0, 0, 0, m.slots, false, 0, 0, Idle, [], [], [])
  }

  /** In every interleaving from boot: in flight implies locked; accepted frames are those
      confirmed, those still pending and those cut off by a set-up; and the engine has
      fetched, each once and in order, exactly the confirmed frames, those cut off late, and
      the first `fetched` of the batch it is on. */
  lemma Conservation(m0: Tx, sts: seq<TStep>)
    requires Booted(m0)
    ensures Inv(m0)
    ensures Runnable(m0, sts) ==>
      var m := Run(m0, sts);
      && (m.inflight ==> m.tail == LOCKED)
      && |m.accepted| == Tally(m.fates, {Sent}) + Pending(m) + Tally(m.fates, {CutSent, CutUnsent})
      && m.txcount == Tally(m.fates, {Sent}) % WORD
      && m.wire == Select(m.accepted, m.fates, {Sent, CutSent}) + m.accepted[|m.fates|..|m.fates| + m.fetched]
  {
    if Runnable(m0, sts) {
      FatesAddUp(Run(m0, sts).fates);
    }
  }

  lemma FatesAddUp(fates: seq<Fate>)
    ensures |fates| == Tally(fates, {Sent}) + Tally(fates, {CutSent, CutUnsent})
  {
    TallyUnion(fates, {Sent}, {CutSent, CutUnsent});
    forall f: Fate ensures f in {Sent} + {CutSent, CutUnsent} {
      match f { case Sent => case CutSent => case CutUnsent => }
    }
    TallyAll(fates, {Sent} + {CutSent, CutUnsent});
  }

  // ---- undisturbed calls ---------------------------------------------------

  predicate Accepts(m: Tx, f: Frame) { m.depth != 0 && !Locked(m) && m.tail < ETH_BDS - 1 && |f| < MTU }

  /** What an enqueue call does when nothing lands between its instructions. */
  function Enqueued(m: Tx, f: Frame): Tx
    requires Shaped(m)
  {
    if !Accepts(m, f) then m else
      m.(slots := m.slots[m.tail := TxSlot(|f|, f + m.slots[m.tail].bytes[|f|..])], tail := m.tail + 1,
         accepted := m.accepted + [f])
  }

  /** What a flush call does then. */
  function Flushed(m: Tx): Tx {
    if Locked(m) || m.tail == 0 then m else
      m.(pkts := m.tail, tail := LOCKED, inflight := true, limit := m.tail, fetched := 0)
  }

  lemma RunStep(m: Tx, st: TStep, rest: seq<TStep>)
    requires Inv(m) && Enabled(m, st) && Inv(Do(m, st)) && Runnable(Do(m, st), rest)
    ensures Runnable(m, [st] + rest) && Run(m, [st] + rest) == Run(Do(m, st), rest)
  {
    assert ([st] + rest)[1..] == rest;
  }

  /** A call under way: its instructions so far have made no difference to where it ends. */
  predicate Ends(m: Tx, start: Tx, f: Frame)
    requires Inv(m) && Shaped(start)
  {
    && Accepts(start, f) && m.(pc := Idle, slots := start.slots) == start.(pc := Idle)
    && (m.pc.EnqCopy? || m.pc.EnqLen? || m.pc.EnqInc? || m.pc.EnqStore?) && m.pc.f == f && m.pc.t == start.tail
    && (forall i :: 0 <= i < ETH_BDS && i != start.tail ==> m.slots[i] == start.slots[i])
    && m.slots[start.tail].bytes[|f|..] == start.slots[start.tail].bytes[|f|..]
  }

  function Remaining(pc: Pc): nat
    requires (pc.EnqCopy? && pc.done <= |pc.f|) || pc.EnqLen? || pc.EnqInc? || pc.EnqStore?
  {
    match pc
    case EnqCopy(f, _, done) => 4 + |f| - done
    case EnqLen(_, _) => 3
    case EnqInc(_, _) => 2
    case EnqStore(_, _, _) => 1
  }

  lemma CopyEnds(m: Tx, start: Tx, f: Frame)
    requires Inv(m) && Shaped(start) && Ends(m, start, f) && !m.pc.EnqStore?
    ensures Inv(Instruct(m)) && Ends(Instruct(m), start, f) && Remaining(Instruct(m).pc) < Remaining(m.pc)
  {
    InstrKeeps(m);
    assert Instruct(m).slots[start.tail].bytes[|f|..] == m.slots[start.tail].bytes[|f|..];
  }

  lemma StoreEnds(m: Tx, start: Tx, f: Frame)
    requires Inv(m) && Shaped(start) && start.pc.Idle? && Ends(m, start, f) && m.pc.EnqStore?
    ensures Inv(Instruct(m)) && Instruct(m) == Enqueued(start, f)
  {
    AcceptStep(m);
    var t := start.tail;
    var bytes := m.slots[t].bytes;
    assert bytes == bytes[..|f|] + bytes[|f|..] && f[..|f|] == f;
    assert m.slots == Enqueued(start, f).slots;
  }

  /** Past its checks, an undisturbed enqueue ends with its frame accepted. */
  lemma {:induction false} EnqueueCompletes(m: Tx, start: Tx, f: Frame) returns (sts: seq<TStep>)
    requires Inv(m) && Shaped(start) && start.pc.Idle? && Ends(m, start, f)
    ensures Runnable(m, sts) && Run(m, sts) == Enqueued(start, f)
    decreases Remaining(m.pc)
  {
    if m.pc.EnqStore? {
      StoreEnds(m, start, f);
      assert Run(Instruct(m), []) == Instruct(m);
      RunStep(m, Instr, []);
      sts := [Instr] + [];
    } else {
      CopyEnds(m, start, f);
      var rest := EnqueueCompletes(Instruct(m), start, f);
      RunStep(m, Instr, rest);
      sts := [Instr] + rest;
    }
  }

  /** An enqueue call left alone: accepted exactly when the ring is set up, the queue
      unlocked, a slot other than the last free and the frame shorter than a slot; the frame
      is then in its slot, and nothing else has changed. */
  lemma EnqueueAlone(m: Tx, f: Frame) returns (sts: seq<TStep>)
    requires Inv(m) && m.pc.Idle? && |f| <= NO_WRAP
    ensures Runnable(m, sts) && Run(m, sts) == Enqueued(m, f) && Inv(Enqueued(m, f))
  {
    DoKeeps(m, Enqueue(f));
    var m1 := Do(m, Enqueue(f));
    InstrKeeps(m1);
    var m2 := Instruct(m1);
    RefusedExactly(m1, m.tail, |f|);
    var rest := [];
    if Accepts(m, f) {
      rest := EnqueueCompletes(m2, m, f);
    } else {
      assert m2 == m && Run(m2, []) == m;
    }
    RunStep(m1, Instr, rest);
    RunStep(m, Enqueue(f), [Instr] + rest);
    sts := [Enqueue(f)] + ([Instr] + rest);
  }

  predicate Flushing(pc: Pc) { pc.FlushCheck? || pc.FlushRead? || pc.FlushPkts? || pc.FlushLock? || pc.FlushStart? }

  function FlushLeft(pc: Pc): nat requires Flushing(pc) {
    match pc
    case FlushCheck(_) => 5
    case FlushRead(_) => 4
    case FlushPkts(_, _) => 3
    case FlushLock(_) => 2
    case FlushStart(_) => 1
  }

  /** Only the tail, the packet count and the program counter move before the start. */
  predicate FlushEnds(m: Tx, start: Tx) {
    && Flushing(m.pc) && 0 < m.pc.t == start.tail < LOCKED && start.fetched == 0
    && m.(pc := Idle, tail := 0, pkts := 0) == start.(pc := Idle, tail := 0, pkts := 0)
  }

  lemma {:induction false} FlushCompletes(m: Tx, start: Tx) returns (sts: seq<TStep>)
    requires Inv(m) && start.pc.Idle? && FlushEnds(m, start)
    ensures Runnable(m, sts) && Run(m, sts) == Flushed(start)
    decreases FlushLeft(m.pc)
  {
    FlushKeeps(m);
    var m1 := Instruct(m);
    var rest := [];
    if m.pc.FlushStart? {
      assert m1 == Flushed(start) && Run(m1, []) == m1;
    } else {
      rest := FlushCompletes(m1, start);
    }
    RunStep(m, Instr, rest);
    sts := [Instr] + rest;
  }

  /** A flush call left alone puts all frames of an unlocked queue in flight as one batch and
      locks; on an empty or locked queue it does nothing. */
  lemma FlushAlone(m: Tx) returns (sts: seq<TStep>)
    requires Inv(m) && m.pc.Idle?
    ensures Runnable(m, sts) && Run(m, sts) == Flushed(m) && Inv(Flushed(m))
  {
    DoKeeps(m, Flush);
    var m1 := Do(m, Flush);
    var rest := [];
    if Locked(m) || m.tail == 0 {
      InstrKeeps(m1);
      assert Instruct(m1) == m && Run(m, []) == m;
      RunStep(m1, Instr, []);
      rest := [Instr] + [];
    } else {
      rest := FlushCompletes(m1, m);
    }
    RunStep(m, Flush, rest);
    sts := [Flush] + rest;
  }
}
