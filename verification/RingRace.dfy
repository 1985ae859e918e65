/** A reader of the ring that takes no lock, as the MicroBlaze UART's does: pushes land
    between any two of its instructions. While at most N - 1 - q items are pushed between its
    load of the read index, with q items queued, and its store of it, the interleaved run is an
    atomic one; one more and the stale store can break the ring. */
module RingRace {
  import opened Common
  import opened DropOldest
  import opened RingRuns

  /** Where the read call stands. Its test reads both indices, in either order. */
  datatype Pc<T> =
    | Idle
    | SeenHead(h: nat)
    | SeenTail(t: nat)
    | Load
    | Fetch(h: nat)
    | StoreHead(h: nat, c: T)

  /** `sampled` is the queue length at the load of the read index, `landed` the pushes since,
      and `late` whether some call has seen more than N - 1 - sampled of them. */
  datatype Micro<T> = Micro(log: Log<T>, pc: Pc<T>, sampled: nat, landed: nat, late: bool)

  predicate InWindow<T>(pc: Pc<T>) { pc.Fetch? || pc.StoreHead? }

  predicate Formed<T>(m: Micro<T>) {
    Valid(m.log.ring) && (InWindow(m.pc) ==> m.pc.h < |m.log.ring.cells|)
  }

  /** The store of the read index, whatever has happened since it was loaded. */
  function Stored<T>(s: Log<T>, h: nat, c: T): Log<T> {
    s.(ring := s.ring.(take := Next(h, |s.ring.cells|)), fates := s.fates + [Taken], got := s.got + [c])
  }

  function Go<T>(m: Micro<T>): Micro<T>
    requires Formed(m)
  {
    var r := m.log.ring;
    match m.pc
    case Idle => m
    case SeenHead(h) => m.(pc := if h == r.put then Idle else Load)
    case SeenTail(t) => m.(pc := if t == r.take then Idle else Load)
    case Load => m.(pc := Fetch(r.take), sampled := |Contents(r)|, landed := 0)
    case Fetch(h) => m.(pc := StoreHead(h, r.cells[h]))
    case StoreHead(h, c) => m.(log := Stored(m.log, h, c), pc := Idle)
  }

  datatype MStep<T> =
    | Begin(headFirst: bool)      // the call starts with the first load of its test
    | Instr                       // one more instruction
    | Arrive(item: T)             // the interrupt handler pushes an item

  predicate Enabled<T>(m: Micro<T>, st: MStep<T>) {
    (st.Begin? ==> m.pc.Idle?) && (st.Instr? ==> !m.pc.Idle?)
  }

  function MDo<T>(m: Micro<T>, st: MStep<T>): (m': Micro<T>)
    requires Formed(m) && Enabled(m, st)
    ensures Formed(m')
  {
    var r := m.log.ring;
    match st
    case Begin(headFirst) => m.(pc := if headFirst then SeenHead(r.take) else SeenTail(r.put))
    case Instr => Go(m)
    case Arrive(x) =>
      m.(log := Do(m.log, Push(x)), landed := m.landed + 1,
         late := m.late || (InWindow(m.pc) && m.sampled + m.landed + 1 > |r.cells| - 1))
  }

  /** The call's locals agree with the ring. */
  predicate Fresh<T(==)>(m: Micro<T>)
    requires Formed(m)
  {
    var r := m.log.ring;
    && Accounted(m.log)
    && (m.pc.SeenHead? ==> m.pc.h == r.take || Contents(r) != [])
    && (m.pc.SeenTail? ==> m.pc.t == r.put || Contents(r) != [])
    && (m.pc.Load? ==> Contents(r) != [])
    && (InWindow(m.pc) ==> m.pc.h == r.take && 0 < m.sampled && |Contents(r)| == m.sampled + m.landed)
    && (m.pc.StoreHead? ==> m.pc.c == r.cells[r.take])
  }

  predicate MInv<T(==)>(m: Micro<T>) { Formed(m) && (!m.late ==> Fresh(m)) }

  /** The atomic operations a micro-step stands for. */
  function Label<T>(m: Micro<T>, st: MStep<T>): seq<Op<T>> {
    match st
    case Begin(_) => []
    case Instr => if m.pc.StoreHead? then [Read] else []
    case Arrive(x) => [Push(x)]
  }

  /** While the ring is not full a push leaves the read index and all queued items alone. */
  lemma PushSpares<T>(s: Log<T>, x: T)
    requires Accounted(s)
    ensures Accounted(Do(s, Push(x))) && Contents(Do(s, Push(x)).ring) != []
    ensures |Contents(s.ring)| < |s.ring.cells| - 1 ==>
      && Do(s, Push(x)).ring.take == s.ring.take && |Contents(Do(s, Push(x)).ring)| == |Contents(s.ring)| + 1
      && (Contents(s.ring) != [] ==> Do(s, Push(x)).ring.cells[s.ring.take] == s.ring.cells[s.ring.take])
    ensures |Contents(s.ring)| == |s.ring.cells| - 1 ==>
      && Do(s, Push(x)).ring.take == Next(s.ring.take, |s.ring.cells|)
      && |Contents(Do(s, Push(x)).ring)| == |Contents(s.ring)|
  {
    DoAccounted(s, Push(x));
    StoreRefines(s.ring, x);
    ContentsAt(s.ring);
  }

  lemma ArriveFresh<T>(m: Micro<T>, x: T)
    requires MInv(m)
    ensures MInv(MDo(m, Arrive(x)))
  {
    if !m.late {
      PushSpares(m.log, x);
      ContentsAt(m.log.ring);
    }
  }

  /** Every step keeps the invariant and is one atomic operation, or none, on the ring. */
  lemma MDoRefines<T>(m: Micro<T>, st: MStep<T>)
    requires MInv(m) && Enabled(m, st)
    ensures MInv(MDo(m, st)) && (m.late ==> MDo(m, st).late)
    ensures !MDo(m, st).late ==>
      MDo(m, st).log == if Label(m, st) == [] then m.log else Do(m.log, Label(m, st)[0])
  {
    hide Fresh, Accounted;
    match st
    case Begin(headFirst) => BeginFresh(m, headFirst);
    case Arrive(x) => ArriveFresh(m, x);
    case Instr => if !m.late { if m.pc.StoreHead? { StoreIsRead(m); } else { InstrInvisible(m); } }
  }

  lemma BeginFresh<T>(m: Micro<T>, headFirst: bool)
    requires MInv(m) && m.pc.Idle?
    ensures MInv(MDo(m, Begin(headFirst)))
  {
    hide Accounted, Contents;
  }

  /** All instructions but the last leave the ring alone. */
  lemma InstrInvisible<T>(m: Micro<T>)
    requires MInv(m) && !m.late && !m.pc.Idle? && !m.pc.StoreHead?
    ensures MInv(Go(m)) && Go(m).log == m.log
  {
    ContentsAt(m.log.ring);
    hide Accounted;
  }

  /** The store of the read index is the atomic read. */
  lemma StoreIsRead<T>(m: Micro<T>)
    requires MInv(m) && !m.late && m.pc.StoreHead?
    ensures MInv(Go(m)) && Go(m).log == Do(m.log, Read)
  {
    ContentsAt(m.log.ring);
    DoAccounted(m.log, Read);
    hide Accounted;
  }

  predicate Runnable<T>(m: Micro<T>, sts: seq<MStep<T>>)
    requires Formed(m)
    decreases |sts|
  {
    sts == [] || (Enabled(m, sts[0]) && Runnable(MDo(m, sts[0]), sts[1..]))
  }

  function MRun<T>(m: Micro<T>, sts: seq<MStep<T>>): (m': Micro<T>)
    requires Formed(m) && Runnable(m, sts)
    ensures Formed(m')
    decreases |sts|
  {
    if sts == [] then m else MRun(MDo(m, sts[0]), sts[1..])
  }

  function Labels<T>(m: Micro<T>, sts: seq<MStep<T>>): seq<Op<T>>
    requires Formed(m) && Runnable(m, sts)
    decreases |sts|
  {
    if sts == [] then [] else Label(m, sts[0]) + Labels(MDo(m, sts[0]), sts[1..])
  }

  lemma {:induction false} LateSticks<T>(m: Micro<T>, sts: seq<MStep<T>>)
    requires Formed(m) && Runnable(m, sts) && m.late
    ensures MRun(m, sts).late
    decreases |sts|
  {
    if sts == [] {
    } else {
      LateSticks(MDo(m, sts[0]), sts[1..]);
    }
  }

  /** Every interleaving in which no call sees more than N - 1 - q pushes is an atomic run: the
      same items read, in order, the same items lost, the same content. */
  lemma {:induction false} InterleavingIsAtomic<T>(m: Micro<T>, sts: seq<MStep<T>>)
    requires MInv(m) && Runnable(m, sts) && !MRun(m, sts).late
    ensures !m.late && Accounted(m.log) && MRun(m, sts).log == Run(m.log, Labels(m, sts))
    decreases |sts|
  {
    if m.late { LateSticks(m, sts); }
    if sts == [] {
    } else {
      var m1 := MDo(m, sts[0]);
      MDoRefines(m, sts[0]);
      InterleavingIsAtomic(m1, sts[1..]);
      var l, ls := Label(m, sts[0]), Labels(m1, sts[1..]);
      if l == [] { assert l + ls == ls; } else { assert (l + ls)[1..] == ls; }
    }
  }

  // ---- the bound is tight --------------------------------------------------

  function Arrivals<T>(xs: seq<T>): seq<MStep<T>> { seq(|xs|, i requires 0 <= i < |xs| => Arrive(xs[i])) }

  function PushAll<T(==)>(s: Log<T>, xs: seq<T>): (s': Log<T>)
    requires Accounted(s)
    ensures Accounted(s') && |s'.ring.cells| == |s.ring.cells| && |s'.offered| == |s.offered| + |xs|
    decreases |xs|
  {
    if xs == [] then s else
      DoAccounted(s, Push(xs[0]));
      PushAll(Do(s, Push(xs[0])), xs[1..])
  }

  /** Filling the ring and one more: exactly one item, the oldest, is lost. */
  lemma {:induction false} OverfillByOne<T>(s: Log<T>, xs: seq<T>)
    requires Accounted(s) && xs != [] && |Contents(s.ring)| + |xs| == |s.ring.cells|
    ensures PushAll(s, xs).ring.take == Next(s.ring.take, |s.ring.cells|)
    ensures |Contents(PushAll(s, xs).ring)| == |s.ring.cells| - 1
    decreases |xs|
  {
    PushSpares(s, xs[0]);
    if |xs| == 1 {
      assert PushAll(Do(s, Push(xs[0])), []) == Do(s, Push(xs[0]));
    } else {
      OverfillByOne(Do(s, Push(xs[0])), xs[1..]);
    }
  }

  lemma {:induction false} ArrivalsRun<T>(m: Micro<T>, xs: seq<T>)
    requires Formed(m) && Accounted(m.log)
    ensures Runnable(m, Arrivals(xs))
    ensures MRun(m, Arrivals(xs)).log == PushAll(m.log, xs) && MRun(m, Arrivals(xs)).pc == m.pc
    decreases |xs|
  {
    if xs == [] {
    } else {
      assert Arrivals(xs)[1..] == Arrivals(xs[1..]);
      DoAccounted(m.log, Push(xs[0]));
      ArrivalsRun(MDo(m, Arrive(xs[0])), xs[1..]);
    }
  }

  /** With q items queued, a call about to store the read index sees N - q more pushes, one
      too many: whatever the items are, once it stores, the accounting is broken. */
  lemma StaleStoreBreaks<T>(m: Micro<T>, xs: seq<T>)
    requires MInv(m) && !m.late && m.pc.StoreHead? && xs != []
    requires |Contents(m.log.ring)| + |xs| == |m.log.ring.cells|
    ensures Runnable(m, Arrivals(xs)) && !Accounted(Go(MRun(m, Arrivals(xs))).log)
  {
    hide MInv, Fresh, Accounted, Contents, MRun, Runnable, Arrivals, PushAll;
    HeldIndex(m);
    ArrivalsRun(m, xs);
    OverfillByOne(m.log, xs);
    StoredTwice(PushAll(m.log, xs), m.pc.h, m.pc.c);
  }

  lemma HeldIndex<T>(m: Micro<T>)
    requires MInv(m) && !m.late && m.pc.StoreHead?
    ensures Accounted(m.log) && m.pc.h == m.log.ring.take
  {
  }

  /** A store that puts the read index where it already is counts an item twice. */
  lemma StoredTwice<T>(s: Log<T>, h: nat, c: T)
    requires Accounted(s) && s.ring.take == Next(h, |s.ring.cells|)
    ensures !Accounted(Stored(s, h, c))
  {
    assert Stored(s, h, c).ring == s.ring;
  }

  /** An undisturbed call with an item to read gets as far as the store. */
  lemma ReachesStore<T>(m: Micro<T>, headFirst: bool)
    requires MInv(m) && !m.late && m.pc.Idle? && Contents(m.log.ring) != []
    ensures var m4 := Go(Go(Go(MDo(m, Begin(headFirst)))));
      MInv(m4) && !m4.late && m4.pc.StoreHead? && m4.log == m.log
  {
    ContentsAt(m.log.ring);
    var m1 := MDo(m, Begin(headFirst));
    MDoRefines(m, Begin(headFirst));
    MDoRefines(m1, Instr);
    MDoRefines(Go(m1), Instr);
    MDoRefines(Go(Go(m1)), Instr);
  }

  /** The bound is exact: from every sound idle state with q > 0 items queued, a call that gets
      undisturbed to its store, sees any N - q items pushed and then stores leaves the ring
      unsound, in whichever order its test reads the indices. */
  lemma BoundIsTight<T>(m: Micro<T>, headFirst: bool, xs: seq<T>)
    requires MInv(m) && !m.late && m.pc.Idle? && Contents(m.log.ring) != []
    requires |Contents(m.log.ring)| + |xs| == |m.log.ring.cells|
    ensures var m4 := Go(Go(Go(MDo(m, Begin(headFirst)))));
      Runnable(m4, Arrivals(xs)) && !Accounted(Go(MRun(m4, Arrivals(xs))).log)
  {
    ContentsAt(m.log.ring);
    ReachesStore(m, headFirst);
    StaleStoreBreaks(Go(Go(Go(MDo(m, Begin(headFirst))))), xs);
  }
}
