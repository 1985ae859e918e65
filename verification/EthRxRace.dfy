/** The consumer runs without a lock while receive interrupts land between any two of
    its instructions. As long as at most 9 - q interrupts land between its read of the
    tail (with q frames queued) and its store of the tail, the interleaved run is the run
    of an atomic consumer; one interrupt more and the stale store can break the queue. */
module EthRxRace {
  import opened Common
  import opened DropOldest
  import opened MemoryMap
  import opened EthRx

  /** Where the consume call stands, with its local variables. */
  datatype Pc =
    | Idle
    | ReadTail(h: nat)
    | ReadStatus(t: nat)
    | ReadLen(t: nat)
    | ClearLen(t: nat, len: nat)
    | ClearCmplt(t: nat, len: nat)
    | Copy(t: nat, len: nat, got: seq<Byte>)
    | StoreTail(t: nat, len: nat, got: seq<Byte>)

  /** `sampled` is the queue length when the tail was read, `landed` the interrupts since,
      and `late` whether some call has seen more than 9 - sampled of them. */
  datatype Micro = Micro(rx: Rx, pc: Pc, memLen: nat, sampled: nat, landed: nat, late: bool)

  predicate InWindow(pc: Pc) { !pc.Idle? && !pc.ReadTail? }

  predicate PcOk(pc: Pc) {
    match pc
    case Idle => true
    case ReadTail(h) => h < ETH_BDS
    case ReadStatus(t) => t < ETH_BDS
    case ReadLen(t) => t < ETH_BDS
    case ClearLen(t, len) => t < ETH_BDS && len <= MTU
    case ClearCmplt(t, len) => t < ETH_BDS && len <= MTU
    case Copy(t, len, got) => t < ETH_BDS && |got| <= len <= MTU
    case StoreTail(t, len, got) => t < ETH_BDS && |got| == len <= MTU
  }

  predicate Formed(m: Micro) { Shaped(m.rx) && PcOk(m.pc) }

  function Put(s: Rx, t: nat, slot: EthRx.Slot): Rx
    requires Shaped(s) && t < ETH_BDS
  {
    s.(ring := s.ring.(cells := s.ring.cells[t := slot]))
  }

  /** The consumer's next instruction. */
  function Go(m: Micro): (m': Micro)
    requires Formed(m)
    ensures Formed(m')
  {
    var s := m.rx;
    var cells := s.ring.cells;
    match m.pc
    case Idle => m
    case ReadTail(h) =>
      var t := s.ring.take;
      if h == t then m.(pc := Idle) else m.(pc := ReadStatus(t), sampled := Queued(s), landed := 0)
    case ReadStatus(t) => m.(pc := if cells[t].cmplt then ReadLen(t) else Idle)
    case ReadLen(t) => m.(pc := if cells[t].transLen > m.memLen then Idle else ClearLen(t, cells[t].transLen))
    case ClearLen(t, len) => m.(rx := Put(s, t, cells[t].(transLen := 0)), pc := ClearCmplt(t, len))
    case ClearCmplt(t, len) => m.(rx := Put(s, t, cells[t].(cmplt := false)), pc := Copy(t, len, []))
    case Copy(t, len, got) =>
      if |got| < len then m.(pc := Copy(t, len, got + [cells[t].bytes[|got|]])) else m.(pc := StoreTail(t, len, got))
    case StoreTail(t, len, got) => m.(rx := Stored(s, t, got), pc := Idle)
  }

  /** The store of the tail, whatever has happened since the call read it. */
  function Stored(s: Rx, t: nat, got: Frame): Rx
    requires t < ETH_BDS
  {
    s.(ring := s.ring.(take := Next(t, ETH_BDS)), fates := s.fates + [Delivered], delivered := s.delivered + [got])
  }

  datatype MStep =
    | Begin(memLen: nat)          // the call starts: read the head
    | Instr                       // one more consumer instruction
    | Arrive(frame: Frame)        // a frame completes and its interrupt runs
    | Engine(bytes: seq<Byte>)    // the engine writes into its current buffer
    | Setup(allowed: bool)        // the service sets the ring up again, between calls

  predicate Enabled(m: Micro, st: MStep) {
    match st
    case Begin(_) => m.pc.Idle?
    case Instr => !m.pc.Idle?
    case Arrive(f) => |f| <= MTU
    case Engine(bytes) => |bytes| == MTU
    case Setup(_) => m.pc.Idle?
  }

  function MDo(m: Micro, st: MStep): (m': Micro)
    requires Formed(m) && Enabled(m, st)
    ensures Formed(m')
  {
    match st
    case Begin(memLen) => m.(pc := ReadTail(m.rx.ring.put), memLen := memLen)
    case Instr => Go(m)
    case Arrive(f) =>
      m.(rx := FrameDone(m.rx, f), landed := m.landed + 1,
         late := m.late || (InWindow(m.pc) && m.sampled + m.landed + 1 > ETH_BDS - 1))
    case Engine(bytes) => m.(rx := Scribble(m.rx, bytes))
    case Setup(allowed) => m.(rx := Reset(m.rx, allowed))
  }

  // ---- the atomic state an interleaved state stands for ------------------

  /** Undo the status stores that a call in progress has already made. */
  function Abs(m: Micro): Rx
    requires Formed(m)
  {
    match m.pc
    case ClearCmplt(t, len) => Put(m.rx, t, m.rx.ring.cells[t].(transLen := len))
    case Copy(t, len, _) => Put(m.rx, t, m.rx.ring.cells[t].(transLen := len, cmplt := true))
    case StoreTail(t, len, _) => Put(m.rx, t, m.rx.ring.cells[t].(transLen := len, cmplt := true))
    case _ => m.rx
  }

  /** The call's locals agree with the atomic state: the tail it read is still the tail,
      and what it has copied is the start of the oldest frame. */
  predicate Fresh(m: Micro)
    requires Formed(m)
  {
    var s := Abs(m);
    && Inv(s)
    && (m.pc.ReadTail? ==> m.pc.h == s.ring.put || Queued(s) > 0)
    && (InWindow(m.pc) ==>
        && m.pc.t == s.ring.take && m.sampled > 0
        && Queued(s) == m.sampled + m.landed < ETH_BDS)
    && (InWindow(m.pc) && !m.pc.ReadStatus? && !m.pc.ReadLen? ==>
        m.pc.len == |Waiting(s)[0]| <= m.memLen)
    && (m.pc.ClearLen? ==> m.rx.ring.cells[m.pc.t].cmplt && m.rx.ring.cells[m.pc.t].transLen == m.pc.len)
    && (m.pc.ClearCmplt? ==> m.rx.ring.cells[m.pc.t].transLen == 0)
    && (m.pc.Copy? || m.pc.StoreTail? ==>
        && m.rx.ring.cells[m.pc.t].transLen == 0 && !m.rx.ring.cells[m.pc.t].cmplt
        && |m.pc.got| <= |Waiting(s)[0]| && m.pc.got == Waiting(s)[0][..|m.pc.got|])
  }

  predicate MInv(m: Micro) { Formed(m) && (!m.late ==> Fresh(m)) }

  /** The atomic steps a micro-step stands for: the consume happens at the store of the
      tail, every other consumer instruction is invisible. */
  function Label(m: Micro, st: MStep): seq<Step> {
    match st
    case Begin(_) => []
    case Instr => if m.pc.StoreTail? then [Take(m.memLen)] else []
    case Arrive(f) => [Step.Arrive(f)]
    case Engine(bytes) => [Step.Engine(bytes)]
    case Setup(allowed) => [Step.Setup(allowed)]
  }

  // ---- one micro-step ----------------------------------------------------

  /** While the queue is not full, an arrival leaves the tail and the oldest slot alone. */
  lemma ArrivalSparesOldest(s: Rx, f: Frame, slot: EthRx.Slot)
    requires Inv(s) && 0 < Queued(s) < ETH_BDS - 1 && |f| <= MTU
    requires slot.transLen <= |slot.bytes| == MTU
    ensures FrameDone(s, f).ring.take == s.ring.take
    ensures s.dma != s.ring.take
    ensures var u := Put(s, s.ring.take, slot); Shaped(u) && FrameDone(u, f) == Put(FrameDone(s, f), s.ring.take, slot)
    ensures Queued(FrameDone(s, f)) == Queued(s) + 1
    ensures FrameDone(s, f).ring.cells[s.ring.take] == s.ring.cells[s.ring.take]
    ensures Inv(FrameDone(s, f)) && Waiting(FrameDone(s, f)) == Waiting(s) + [f]
  {
    FrameDoneKeeps(s, f);
    ContentsAt(s.ring);
    var u := Put(s, s.ring.take, slot);
    assert EngineDone(u, f).ring.cells == EngineDone(s, f).ring.cells[s.ring.take := slot];
  }

  /** What an arrival does to the state of a call in progress is what it does to the
      atomic state. */
  lemma ArriveAbs(m: Micro, f: Frame)
    requires MInv(m) && |f| <= MTU && !MDo(m, MStep.Arrive(f)).late
    ensures Abs(MDo(m, MStep.Arrive(f))) == FrameDone(Abs(m), f)
  {
    hide Inv, FrameDone, Queued;
    var m', s := MDo(m, MStep.Arrive(f)), Abs(m);
    if InWindow(m.pc) {
      var slot := m.rx.ring.cells[m.pc.t];
      ArrivalSparesOldest(s, f, slot);
      assert m.rx.ring.cells == s.ring.cells[m.pc.t := slot];
      assert m.rx == Put(s, m.pc.t, slot);
      assert m'.rx == Put(FrameDone(s, f), m.pc.t, slot);
      assert FrameDone(s, f).ring.cells[m.pc.t] == s.ring.cells[m.pc.t];
      assert Abs(m').ring.cells == FrameDone(s, f).ring.cells;
    }
  }

  lemma ArriveFresh(m: Micro, f: Frame)
    requires MInv(m) && |f| <= MTU
    ensures MInv(MDo(m, MStep.Arrive(f)))
  {
    hide Inv, FrameDone, Queued;
    var m' := MDo(m, MStep.Arrive(f));
    if !m'.late {
      ArriveAbs(m, f);
      if InWindow(m.pc) {
        ArrivalSparesOldest(Abs(m), f, m.rx.ring.cells[m.pc.t]);
        SlotSpared(m, f);
        OldestHolds(Abs(m));
      } else {
        FrameDoneKeeps(m.rx, f);
        OneArrival(m.rx, f);
      }
    }
  }

  /** The slot a call is reading is not the engine's. */
  lemma SlotSpared(m: Micro, f: Frame)
    requires MInv(m) && |f| <= MTU && !MDo(m, MStep.Arrive(f)).late && InWindow(m.pc)
    ensures FrameDone(m.rx, f).ring.cells[m.pc.t] == m.rx.ring.cells[m.pc.t]
  {
    ArrivalSparesOldest(Abs(m), f, m.rx.ring.cells[m.pc.t]);
    assert m.rx.dma == Abs(m).dma;
    hide Inv, Queued;
  }

  /** The oldest slot holds the oldest waiting frame. */
  lemma OldestHolds(s: Rx)
    requires Inv(s) && Queued(s) > 0
    ensures |Waiting(s)| == Queued(s) && |Waiting(s)[0]| <= MTU
    ensures Holds(s.ring.cells[s.ring.take], Waiting(s)[0])
  {
    RemoveStocked(s.ring, Waiting(s), s.ring.cells[s.ring.take]);
    assert Waiting(s)[0] == s.received[|s.fates|];
  }

  lemma EngineFresh(m: Micro, bytes: seq<Byte>)
    requires MInv(m) && |bytes| == MTU
    ensures var m' := MDo(m, MStep.Engine(bytes));
      MInv(m') && (!m'.late ==> Abs(m') == Scribble(Abs(m), bytes))
  {
    if !m.late {
      var m', s := MDo(m, MStep.Engine(bytes)), Abs(m);
      ScribbleKeeps(s, bytes);
      ContentsAt(s.ring);
      assert Abs(m').ring.cells == Scribble(s, bytes).ring.cells;
      assert Abs(m') == Scribble(s, bytes);
    }
  }

  /** Every instruction of the call but the last leaves the atomic state as it was. */
  lemma InstrAbs(m: Micro)
    requires MInv(m) && !m.late && !m.pc.Idle? && !m.pc.StoreTail?
    ensures Abs(Go(m)) == Abs(m)
  {
    var cells := m.rx.ring.cells;
    match m.pc
    case ClearLen(t, len) => assert cells[t := cells[t].(transLen := 0)][t := cells[t]] == cells;
    case ClearCmplt(t, len) =>
      var slot := cells[t].(cmplt := false);
      assert cells[t := slot][t := cells[t].(transLen := len)] == cells[t := cells[t].(transLen := len)];
    case _ =>
  }

  lemma PrefixNext(bytes: seq<Byte>, w: Frame, got: seq<Byte>)
    requires |w| <= |bytes| && bytes[..|w|] == w && |got| < |w| && got == w[..|got|]
    ensures got + [bytes[|got|]] == w[..|got| + 1]
  {
    assert bytes[|got|] == bytes[..|w|][|got|];
  }

  /** One byte of the copy. */
  lemma CopyInvisible(m: Micro)
    requires MInv(m) && !m.late && m.pc.Copy? && |m.pc.got| < m.pc.len
    ensures Fresh(Go(m))
  {
    var s := Abs(m);
    OldestHolds(s);
    hide Inv, Queued;
    PrefixNext(m.rx.ring.cells[m.pc.t].bytes, Waiting(s)[0], m.pc.got);
    InstrAbs(m);
  }

  lemma TailFresh(m: Micro)
    requires MInv(m) && !m.late && m.pc.ReadTail?
    ensures Fresh(Go(m))
  {
    QueuedIsBetween(m.rx);
    hide Inv, Queued;
  }

  lemma StatusFresh(m: Micro)
    requires MInv(m) && !m.late && (m.pc.ReadStatus? || m.pc.ReadLen?)
    ensures Fresh(Go(m))
  {
    OldestHolds(m.rx);
    hide Inv, Queued;
  }

  lemma ClearFresh(m: Micro)
    requires MInv(m) && !m.late && (m.pc.ClearLen? || m.pc.ClearCmplt?)
    ensures Fresh(Go(m))
  {
    InstrAbs(m);
    OldestHolds(Abs(m));
    hide Inv, Queued;
  }

  lemma CopiedFresh(m: Micro)
    requires MInv(m) && !m.late && m.pc.Copy? && |m.pc.got| >= m.pc.len
    ensures Fresh(Go(m))
  {
    hide Inv, Queued;
  }

  lemma InstrInvisible(m: Micro)
    requires MInv(m) && !m.pc.Idle? && !m.pc.StoreTail?
    ensures MInv(Go(m))
  {
    hide Fresh, Inv;
    if !m.late {
      match m.pc
      case ReadTail(_) => TailFresh(m);
      case ReadStatus(_) => StatusFresh(m);
      case ReadLen(_) => StatusFresh(m);
      case ClearLen(_, _) => ClearFresh(m);
      case ClearCmplt(_, _) => ClearFresh(m);
      case Copy(_, len, got) => if |got| < len { CopyInvisible(m); } else { CopiedFresh(m); }
    }
  }

  /** The store of the tail is the atomic consume. */
  lemma StoreIsConsume(m: Micro)
    requires MInv(m) && m.pc.StoreTail?
    ensures MInv(Go(m)) && (!m.late ==> Abs(Go(m)) == Consume(Abs(m), m.memLen))
  {
    if !m.late {
      var s := Abs(m);
      ConsumeKeeps(s, m.memLen);
      ContentsAt(s.ring);
      RemoveStocked(s.ring, Waiting(s), s.ring.cells[s.ring.take]);
      assert Consume(s, m.memLen).ring.cells == m.rx.ring.cells;
      assert m.pc.got == s.ring.cells[m.pc.t].bytes[..m.pc.len];
    }
  }

  /** The micro-step keeps the invariant and, unless the bound is exceeded, is in the atomic
      state the step its label names, or nothing. */
  ghost predicate Refines(m: Micro, st: MStep)
    requires Formed(m) && Enabled(m, st)
  {
    var m' := MDo(m, st);
    && MInv(m') && (m.late ==> m'.late)
    && (!m'.late ==> Inv(Abs(m)) && Abs(m') == if Label(m, st) == [] then Abs(m) else EthRx.Do(Abs(m), Label(m, st)[0]))
  }

  lemma InstrRefines(m: Micro)
    requires MInv(m) && !m.pc.Idle?
    ensures Refines(m, Instr)
  {
    if m.pc.StoreTail? {
      StoreIsConsume(m);
    } else {
      InstrInvisible(m);
      if !m.late { InstrAbs(m); }
    }
  }

  lemma ArriveRefines(m: Micro, f: Frame)
    requires MInv(m) && |f| <= MTU
    ensures Refines(m, MStep.Arrive(f))
  {
    ArriveFresh(m, f);
    if !MDo(m, MStep.Arrive(f)).late { ArriveAbs(m, f); }
  }

  lemma MDoRefines(m: Micro, st: MStep)
    requires MInv(m) && Enabled(m, st)
    ensures Refines(m, st)
  {
    match st
    case Begin(_) => BeginFresh(m, st);
    case Instr => InstrRefines(m);
    case Arrive(f) => ArriveRefines(m, f);
    case Engine(bytes) => EngineFresh(m, bytes);
    case Setup(allowed) => SetupFresh(m, allowed);
  }

  lemma BeginFresh(m: Micro, st: MStep)
    requires MInv(m) && st.Begin? && Enabled(m, st)
    ensures MInv(MDo(m, st)) && Abs(MDo(m, st)) == Abs(m) == m.rx
  {
  }

  lemma SetupFresh(m: Micro, allowed: bool)
    requires MInv(m) && m.pc.Idle?
    ensures MInv(MDo(m, MStep.Setup(allowed))) && Abs(MDo(m, MStep.Setup(allowed))) == Reset(Abs(m), allowed)
  {
    if !m.late { ResetKeeps(m.rx, allowed); }
  }

  // ---- whole interleaved runs ---------------------------------------------

  predicate Runnable(m: Micro, sts: seq<MStep>)
    requires Formed(m)
    decreases |sts|
  {
    sts == [] || (Enabled(m, sts[0]) && Runnable(MDo(m, sts[0]), sts[1..]))
  }

  function MRun(m: Micro, sts: seq<MStep>): (m': Micro)
    requires Formed(m) && Runnable(m, sts)
    ensures Formed(m')
    decreases |sts|
  {
    if sts == [] then m else MRun(MDo(m, sts[0]), sts[1..])
  }

  function Labels(m: Micro, sts: seq<MStep>): seq<Step>
    requires Formed(m) && Runnable(m, sts)
    decreases |sts|
  {
    if sts == [] then [] else Label(m, sts[0]) + Labels(MDo(m, sts[0]), sts[1..])
  }

  lemma {:induction false} LabelsPossible(m: Micro, sts: seq<MStep>)
    requires Formed(m) && Runnable(m, sts)
    ensures forall st :: st in Labels(m, sts) ==> Possible(st)
    decreases |sts|
  {
    if sts == [] {
    } else {
      LabelsPossible(MDo(m, sts[0]), sts[1..]);
    }
  }

  lemma {:induction false} LateSticks(m: Micro, sts: seq<MStep>)
    requires Formed(m) && Runnable(m, sts) && m.late
    ensures MRun(m, sts).late
    decreases |sts|
  {
    if sts == [] {
    } else {
      LateSticks(MDo(m, sts[0]), sts[1..]);
    }
  }

  /** Every interleaving in which no call sees more than 9 - q interrupts is an atomic
      run: same frames delivered untorn, same drops, same counters, ring invariant kept. */
  lemma {:induction false} InterleavingIsAtomic(m: Micro, sts: seq<MStep>)
    requires MInv(m) && Runnable(m, sts) && !MRun(m, sts).late
    ensures !m.late && Inv(Abs(m))
    ensures forall st :: st in Labels(m, sts) ==> Possible(st)
    ensures Abs(MRun(m, sts)) == EthRx.Run(Abs(m), Labels(m, sts))
    ensures MRun(m, sts).pc.Idle? ==> Inv(MRun(m, sts).rx)
    decreases |sts|
  {
    if m.late { LateSticks(m, sts); }
    LabelsPossible(m, sts);
    if sts == [] {
    } else {
      var m1 := MDo(m, sts[0]);
      MDoRefines(m, sts[0]);
      InterleavingIsAtomic(m1, sts[1..]);
      var l, ls := Label(m, sts[0]), Labels(m1, sts[1..]);
      if l == [] { assert l + ls == ls; } else { assert (l + ls)[1..] == ls; }
    }
  }

  // ---- the bound is tight --------------------------------------------------

  function ArriveSteps(fs: seq<Frame>): seq<MStep> { seq(|fs|, i requires 0 <= i < |fs| => MStep.Arrive(fs[i])) }

  function After(s: Rx, fs: seq<Frame>): (s': Rx)
    requires Shaped(s) && forall f :: f in fs ==> |f| <= MTU
    ensures Shaped(s')
    decreases |fs|
  {
    if fs == [] then s else After(FrameDone(s, fs[0]), fs[1..])
  }

  lemma OneArrival(s: Rx, f: Frame)
    requires Shaped(s) && |f| <= MTU
    ensures var s' := FrameDone(s, f);
      && Shaped(s') && s'.received == s.received + [f] && s'.delivered == s.delivered
      && Queued(s') == (if Queued(s) == ETH_BDS - 1 then ETH_BDS - 1 else Queued(s) + 1)
      && s'.fates == s.fates + (if Queued(s) == ETH_BDS - 1 then [Dropped] else [])
  {
    ContentsAt(s.ring);
    ContentsAt(FrameDone(s, f).ring);
  }

  /** Frames dropped when k arrive on top of q. */
  function Excess(q: nat, k: nat): nat { if q + k < ETH_BDS then 0 else q + k - (ETH_BDS - 1) }

  /** What the arrivals `fs` on top of q queued frames do to the histories. */
  predicate Ledgered(s: Rx, s': Rx, q: nat, fs: seq<Frame>) {
    && s'.received == s.received + fs && s'.delivered == s.delivered
    && |s'.fates| == |s.fates| + Excess(q, |fs|)
  }

  lemma LedgerChain(s: Rx, s1: Rx, s2: Rx, q: nat, fs: seq<Frame>)
    requires q < ETH_BDS && fs != [] && Ledgered(s, s1, q, fs[..1])
    requires Ledgered(s1, s2, if q == ETH_BDS - 1 then q else q + 1, fs[1..])
    ensures Ledgered(s, s2, q, fs)
  {
    assert fs[..1] + fs[1..] == fs;
  }

  /** Whatever the slots hold, k arrivals on q queued frames drop q + k - 9 of them. */
  lemma {:induction false} ArrivalLedger(s: Rx, fs: seq<Frame>, q: nat)
    requires Shaped(s) && Queued(s) == q < ETH_BDS && forall f :: f in fs ==> |f| <= MTU
    ensures Ledgered(s, After(s, fs), q, fs)
    decreases |fs|
  {
    hide FrameDone, Queued, Shaped;
    if fs == [] {
    } else {
      OneArrival(s, fs[0]);
      var s1 := FrameDone(s, fs[0]);
      ArrivalLedger(s1, fs[1..], if q == ETH_BDS - 1 then q else q + 1);
      LedgerChain(s, s1, After(s, fs), q, fs);
    }
  }

  lemma {:induction false} ArriveStepsRun(m: Micro, fs: seq<Frame>)
    requires Formed(m) && forall f :: f in fs ==> |f| <= MTU
    ensures Runnable(m, ArriveSteps(fs))
    ensures MRun(m, ArriveSteps(fs)).rx == After(m.rx, fs) && MRun(m, ArriveSteps(fs)).pc == m.pc
    decreases |fs|
  {
    if fs == [] {
    } else {
      assert ArriveSteps(fs)[1..] == ArriveSteps(fs[1..]);
      ArriveStepsRun(MDo(m, MStep.Arrive(fs[0])), fs[1..]);
    }
  }

  lemma {:induction false} HeadAfter(s: Rx, fs: seq<Frame>)
    requires Shaped(s) && forall f :: f in fs ==> |f| <= MTU
    ensures After(s, fs).ring.put == (s.ring.put + |fs|) % ETH_BDS
    decreases |fs|
  {
    if fs == [] {
    } else {
      HeadAfter(FrameDone(s, fs[0]), fs[1..]);
      NextMod(s.ring.put, |fs| - 1);
    }
  }

  lemma NextMod(i: nat, k: nat)
    requires i < ETH_BDS
    ensures (Next(i, ETH_BDS) + k) % ETH_BDS == (i + (k + 1)) % ETH_BDS
  {
  }

  /** The stale store leaves (q + k - 1) mod 10 slots between tail and head. */
  lemma StaleCount(take: nat, put: nat, k: nat)
    requires take < ETH_BDS && put < ETH_BDS && take != put
    ensures Between(Next(take, ETH_BDS), (put + k) % ETH_BDS) == (Between(take, put) + k - 1) % ETH_BDS
  {
    var r := WholeRounds(k);
    SmallMod(put, r, k);
    SmallMod(Between(take, put) - 1, r, k);
  }

  lemma WholeRounds(k: nat) returns (r: nat)
    ensures r < ETH_BDS && k == r + ETH_BDS * (k / ETH_BDS)
  {
    r := k % ETH_BDS;
  }

  lemma SmallMod(a: nat, r: nat, k: nat)
    requires a < ETH_BDS && r < ETH_BDS && k == r + ETH_BDS * (k / ETH_BDS)
    ensures (a + k) % ETH_BDS == if a + r < ETH_BDS then a + r else a + r - ETH_BDS
  {
  }

  /** The damage can be seen: from the queue length, unless q + k is 9 modulo 10 and the
      length fits by chance; then from the oldest frame, if no later one is equal to it. */
  predicate Shows(s: Rx, fs: seq<Frame>)
    requires Shaped(s) && |s.fates| < |s.received|
  {
    (Queued(s) + |fs|) % ETH_BDS == ETH_BDS - 1 ==> s.received[|s.fates|] !in s.received[|s.fates| + 1..] + fs
  }

  /** A stale store after k more arrivals with q + k > 9: the frame it delivers has also been
      dropped, and the accounting is broken. */
  lemma StaleStore(s: Rx, fs: seq<Frame>, q: nat)
    requires Shaped(s) && 1 <= q == Queued(s) < ETH_BDS && |s.fates| + q == |s.received|
    requires (forall f :: f in fs ==> |f| <= MTU) && q + |fs| > ETH_BDS - 1 && Shows(s, fs)
    ensures !Inv(Stored(After(s, fs), s.ring.take, s.received[|s.fates|]))
  {
    hide Inv, After, Queued;
    var s1, got := After(s, fs), s.received[|s.fates|];
    var s2 := Stored(s1, s.ring.take, got);
    ArrivalLedger(s, fs, q);
    if (q + |fs|) % ETH_BDS == ETH_BDS - 1 {
      DroppedAndDelivered(s, s1, fs, got, s2);
    } else {
      HeadAfter(s, fs);
      QueuedIsBetween(s);
      StaleCount(s.ring.take, s.ring.put, |fs|);
      WrongLength(s, s1, fs, s2, q);
    }
  }

  /** The same for a call that is about to store the tail and then sees the arrivals. */
  lemma StaleStoreBreaks(m: Micro, fs: seq<Frame>)
    requires MInv(m) && !m.late && m.pc.StoreTail? && forall f :: f in fs ==> |f| <= MTU
    requires |m.rx.fates| < |m.rx.received| && Queued(m.rx) + |fs| > ETH_BDS - 1 && Shows(m.rx, fs)
    ensures Runnable(m, ArriveSteps(fs))
    ensures !Inv(Go(MRun(m, ArriveSteps(fs))).rx)
  {
    HeldFrame(m);
    hide MInv, Inv, MRun, Runnable, ArriveSteps, After, Queued, Shows;
    ArriveStepsRun(m, fs);
    StaleStore(m.rx, fs, Queued(m.rx));
  }

  lemma WrongLength(s: Rx, s1: Rx, fs: seq<Frame>, s2: Rx, q: nat)
    requires |s.fates| + q == |s.received| && Ledgered(s, s1, q, fs) && q + |fs| > ETH_BDS - 1
    requires Shaped(s2) && s2.received == s1.received && |s2.fates| == |s1.fates| + 1
    requires Between(s2.ring.take, s2.ring.put) == (q + |fs| - 1) % ETH_BDS != ETH_BDS - 2
    ensures !Inv(s2)
  {
    QueuedIsBetween(s2);
  }

  lemma DroppedAndDelivered(s: Rx, s1: Rx, fs: seq<Frame>, got: Frame, s2: Rx)
    requires |s.fates| < |s1.fates| < |s.received| + |fs| && s1.received == s.received + fs
    requires |s.fates| < |s.received| && got !in s.received[|s.fates| + 1..] + fs
    requires s2.fates == s1.fates + [Delivered] && s2.delivered == s1.delivered + [got] && s2.received == s1.received
    ensures !Inv(s2)
  {
    Ledger.SelectOne(s2.received, s1.fates, Delivered, {Delivered});
    var expected := Ledger.Select(s2.received, s2.fates, {Delivered});
    var later, n := s.received[|s.fates| + 1..] + fs, |s1.fates|;
    assert s2.received == s.received[..|s.fates| + 1] + later;
    assert expected[|expected| - 1] == later[n - (|s.fates| + 1)];
    assert s2.delivered[|s2.delivered| - 1] == got;
  }

  /** Instructions left before the store of the tail. */
  function Rank(pc: Pc): nat
    requires PcOk(pc) && !pc.Idle?
  {
    match pc
    case ReadTail(_) => MTU + 7
    case ReadStatus(_) => MTU + 6
    case ReadLen(_) => MTU + 5
    case ClearLen(_, _) => MTU + 4
    case ClearCmplt(_, _) => MTU + 3
    case Copy(_, len, got) => 1 + len - |got|
    case StoreTail(_, _, _) => 0
  }

  /** The oldest slot of a call under way is complete and no longer than a frame. */
  lemma OldestReady(m: Micro)
    requires MInv(m) && !m.late && (m.pc.ReadStatus? || m.pc.ReadLen?)
    ensures m.rx.ring.cells[m.pc.t].cmplt && m.rx.ring.cells[m.pc.t].transLen <= MTU
  {
    OldestHolds(m.rx);
  }

  lemma SeesFrame(m: Micro)
    requires MInv(m) && !m.late && m.pc.ReadTail? && m.pc.h == m.rx.ring.put && Queued(m.rx) > 0
    ensures m.pc.h != m.rx.ring.take
  {
    hide Inv;
  }

  /** A call that found a frame does not turn back. */
  lemma InstrProceeds(m: Micro)
    requires MInv(m) && !m.late && !m.pc.Idle? && !m.pc.StoreTail? && m.memLen >= MTU
    requires Queued(m.rx) > 0 && (m.pc.ReadTail? ==> m.pc.h == m.rx.ring.put)
    ensures !Go(m).pc.Idle? && !Go(m).pc.ReadTail? && Rank(Go(m).pc) < Rank(m.pc)
    ensures Go(m).memLen == m.memLen && Go(m).late == m.late && Queued(Go(m).rx) == Queued(m.rx)
  {
    hide Inv, Fresh, Abs, Queued, Shaped;
    GoKeepsIndices(m);
    match m.pc
    case ReadTail(_) => SeesFrame(m);
    case ReadStatus(_) => OldestReady(m);
    case ReadLen(_) => OldestReady(m);
    case _ =>
  }

  /** Until the store of the tail, a call leaves the ring's indices alone. */
  lemma GoKeepsIndices(m: Micro)
    requires Formed(m) && !m.pc.StoreTail?
    ensures Go(m).memLen == m.memLen && Go(m).late == m.late
    ensures Shaped(Go(m).rx) && Queued(Go(m).rx) == Queued(m.rx)
  {
    QueuedIsBetween(m.rx);
    QueuedIsBetween(Go(m).rx);
  }

  /** Undisturbed, a call with a frame to take gets as far as the store of the tail. */
  lemma {:induction false} ReachesStore(m: Micro) returns (sts: seq<MStep>)
    requires MInv(m) && !m.late && !m.pc.Idle? && m.memLen >= MTU
    requires Queued(m.rx) > 0 && (m.pc.ReadTail? ==> m.pc.h == m.rx.ring.put)
    ensures Runnable(m, sts) && MInv(MRun(m, sts)) && !MRun(m, sts).late
    ensures MRun(m, sts).pc.StoreTail? && Abs(MRun(m, sts)) == Abs(m)
    decreases Rank(m.pc)
  {
    hide Inv, Fresh, Abs, Go, Queued;
    if m.pc.StoreTail? {
      return [];
    }
    InstrInvisible(m);
    InstrAbs(m);
    InstrProceeds(m);
    var rest := ReachesStore(Go(m));
    sts := [Instr] + rest;
    assert sts[1..] == rest;
  }

  lemma {:induction false} MRunSplit(m: Micro, a: seq<MStep>, b: seq<MStep>)
    requires Formed(m) && Runnable(m, a) && Runnable(MRun(m, a), b)
    ensures Runnable(m, a + b) && MRun(m, a + b) == MRun(MRun(m, a), b)
    decreases |a|
  {
    if a == [] { assert a + b == b; }
    else {
      assert (a + b)[1..] == a[1..] + b;
      MRunSplit(MDo(m, a[0]), a[1..], b);
    }
  }

  /** The bound is exact: from every sound idle state with q > 0 frames queued, and for
      any k frames with q + k > 9, some interleaving of one consume call with exactly those k
      arrivals leaves the queue unsound. At one interrupt too many, and whenever q + k is not 9
      modulo 10, this is so whatever the frames are; otherwise when none equals the oldest. */
  lemma BoundIsTight(m: Micro, fs: seq<Frame>) returns (sts: seq<MStep>)
    requires MInv(m) && !m.late && m.pc.Idle? && Queued(m.rx) > 0 && forall f :: f in fs ==> |f| <= MTU
    requires |m.rx.fates| < |m.rx.received| && Queued(m.rx) + |fs| > ETH_BDS - 1 && Shows(m.rx, fs)
    ensures Runnable(m, sts) && MRun(m, sts).pc.Idle? && MRun(m, sts).rx.received == m.rx.received + fs
    ensures !Inv(MRun(m, sts).rx)
  {
    hide Inv, Fresh, Abs, Queued, Shows;
    var m1 := MDo(m, Begin(MTU));
    BeginFresh(m, Begin(MTU));
    var a := ReachesStore(m1);
    var m2 := MRun(m1, a);
    HeldFrame(m2);
    ShowsSame(m.rx, m2.rx, fs);
    var b := StoreAfterArrivals(m2, fs);
    MRunSplit(m1, a, b);
    sts := [Begin(MTU)] + (a + b);
    assert sts[1..] == a + b;
  }

  /** Only the queue length and the histories matter to what shows. */
  lemma ShowsSame(s: Rx, s2: Rx, fs: seq<Frame>)
    requires Shaped(s) && Shaped(s2) && Queued(s2) == Queued(s)
    requires s2.received == s.received && s2.fates == s.fates && |s.fates| < |s.received| && Shows(s, fs)
    ensures Shows(s2, fs)
  {
  }

  lemma StoreAfterArrivals(m: Micro, fs: seq<Frame>) returns (sts: seq<MStep>)
    requires MInv(m) && !m.late && m.pc.StoreTail? && forall f :: f in fs ==> |f| <= MTU
    requires |m.rx.fates| < |m.rx.received| && Queued(m.rx) + |fs| > ETH_BDS - 1 && Shows(m.rx, fs)
    ensures Runnable(m, sts) && MRun(m, sts).pc.Idle? && MRun(m, sts).rx.received == m.rx.received + fs
    ensures !Inv(MRun(m, sts).rx)
  {
    hide Inv, Fresh, Queued, Shows, Abs;
    StaleStoreBreaks(m, fs);
    HeldFrame(m);
    var b := ArriveSteps(fs);
    ArriveStepsRun(m, fs);
    ArrivalLedger(m.rx, fs, Queued(m.rx));
    MRunSplit(m, b, [Instr]);
    sts := b + [Instr];
  }

  /** At the store of the tail the call holds the whole oldest frame, and all else is as in
      the atomic state. */
  lemma HeldFrame(m: Micro)
    requires MInv(m) && !m.late && m.pc.StoreTail?
    ensures 1 <= Queued(m.rx) == Queued(Abs(m)) < ETH_BDS && |m.rx.fates| + Queued(m.rx) == |m.rx.received|
    ensures m.pc.got == m.rx.received[|m.rx.fates|] && m.pc.t == m.rx.ring.take
    ensures Abs(m).received == m.rx.received && Abs(m).fates == m.rx.fates
  {
  }
}
