/** The drop-oldest ring that the two UART receivers and the Ethernet receive
    queue each code separately, for any number of slots N. */
module DropOldest {
  import opened Common

  /** `take` is the next slot to read, `put` the next slot to fill; equal means empty. */
  datatype Ring<T> = Ring(cells: seq<T>, take: nat, put: nat)

  predicate Valid<T>(r: Ring<T>) {
    |r.cells| >= 2 && r.take < |r.cells| && r.put < |r.cells|
  }

  function Contents<T>(r: Ring<T>): seq<T>
    requires Valid(r)
  {
    if r.take <= r.put then r.cells[r.take..r.put] else r.cells[r.take..] + r.cells[..r.put]
  }

  /** Slot number of the j-th queued item. */
  function Place<T>(r: Ring<T>, j: nat): (k: nat)
    requires Valid(r) && j < |r.cells|
    ensures k < |r.cells|
  {
    if r.take + j < |r.cells| then r.take + j else r.take + j - |r.cells|
  }

  /** Fill the slot at `put` and advance; when that catches `take`, the oldest item goes. */
  function Store<T>(r: Ring<T>, x: T): Ring<T>
    requires Valid(r)
  {
    var n := |r.cells|;
    var put := Next(r.put, n);
    Ring(r.cells[r.put := x], if put == r.take then Next(r.take, n) else r.take, put)
  }

  function Remove<T>(r: Ring<T>): Ring<T>
    requires Valid(r)
  {
    r.(take := Next(r.take, |r.cells|))
  }

  /** The simple form: a list that holds at most n - 1 items and forgets from the front. */
  function Offer<T>(q: seq<T>, x: T, n: nat): seq<T>
    requires n >= 2
  {
    (if |q| < n - 1 then q else q[1..]) + [x]
  }

  lemma ContentsAt<T>(r: Ring<T>)
    requires Valid(r)
    ensures |Contents(r)| < |r.cells|
    ensures forall j :: 0 <= j < |Contents(r)| ==> Contents(r)[j] == r.cells[Place(r, j)]
    ensures Place(r, |Contents(r)|) == r.put
    ensures forall j :: 0 <= j < |Contents(r)| ==> Place(r, j) != r.put
  {
  }

  /** Storing into the ring is offering to the list; no other slot changes. */
  lemma StoreRefines<T>(r: Ring<T>, x: T)
    requires Valid(r)
    ensures Valid(Store(r, x))
    ensures Contents(Store(r, x)) == Offer(Contents(r), x, |r.cells|)
  {
    var r', q, n := Store(r, x), Contents(r), |r.cells|;
    var o, d := Offer(q, x, n), if |q| < n - 1 then 0 else 1;
    StorePlaces(r, x);
    ContentsAt(r);
    ContentsAt(r');
    hide Contents, Store;
    forall j | 0 <= j < |o| ensures Contents(r')[j] == o[j] {
      if j < |o| - 1 {
        assert Place(r', j) == Place(r, j + d);
        assert o[j] == q[j + d];
      }
    }
  }

  /** Where everything is after a store: the items move up by one place if the oldest went. */
  lemma StorePlaces<T>(r: Ring<T>, x: T)
    requires Valid(r)
    ensures var r', q, n := Store(r, x), Contents(r), |r.cells|;
      var d := if |q| < n - 1 then 0 else 1;
      && Valid(r') && |r'.cells| == n && |q| < n && |Contents(r')| == |q| + 1 - d
      && r'.cells == r.cells[r.put := x] && Place(r', |q| - d) == r.put
      && forall j :: 0 <= j < |q| - d ==> Place(r', j) == Place(r, j + d)
  {
  }

  lemma RemoveRefines<T>(r: Ring<T>)
    requires Valid(r) && Contents(r) != []
    ensures Valid(Remove(r))
    ensures Contents(Remove(r)) == Contents(r)[1..]
    ensures r.cells[r.take] == Contents(r)[0]
  {
  }
}

/** Whole runs of pushes and reads on such a ring. */
module RingRuns {
  import opened Ledger
  import opened DropOldest

  datatype Op<T> = Push(item: T) | Read

  datatype Fate = Taken | Lost

  /** A ring together with all it was ever offered, the fate of each item that
      left it (oldest first) and what its reader got. */
  datatype Log<T> = Log(ring: Ring<T>, offered: seq<T>, fates: seq<Fate>, got: seq<T>)

  function Do<T>(s: Log<T>, op: Op<T>): Log<T>
    requires Valid(s.ring)
  {
    match op
    case Push(x) =>
      Log(Store(s.ring, x), s.offered + [x],
          s.fates + if |Contents(s.ring)| == |s.ring.cells| - 1 then [Lost] else [],
          s.got)
    case Read =>
      if s.ring.take == s.ring.put then s else
      Log(Remove(s.ring), s.offered, s.fates + [Taken], s.got + [s.ring.cells[s.ring.take]])
  }

  predicate Accounted<T(==)>(s: Log<T>) {
    && Valid(s.ring)
    && |s.fates| + |Contents(s.ring)| == |s.offered|
    && Contents(s.ring) == s.offered[|s.fates|..]
    && s.got == Select(s.offered, s.fates, {Taken})
  }

  lemma PushAccounted<T>(s: Log<T>, x: T)
    requires Accounted(s)
    ensures Accounted(Do(s, Push(x))) && |Do(s, Push(x)).ring.cells| == |s.ring.cells|
  {
    StoreRefines(s.ring, x);
    ContentsAt(s.ring);
    assert |Store(s.ring, x).cells| == |s.ring.cells|;
    hide Contents, Store;
    SelectGrow(s.offered, [x], s.fates, {Taken});
    SelectOne(s.offered + [x], s.fates, Lost, {Taken});
    assert s.fates + [] == s.fates;
  }

  lemma ReadAccounted<T>(s: Log<T>)
    requires Accounted(s)
    ensures Accounted(Do(s, Read)) && |Do(s, Read).ring.cells| == |s.ring.cells|
  {
    if s.ring.take != s.ring.put {
      RemoveRefines(s.ring);
      hide Contents;
      SelectOne(s.offered, s.fates, Taken, {Taken});
    }
  }

  lemma DoAccounted<T>(s: Log<T>, op: Op<T>)
    requires Accounted(s)
    ensures Accounted(Do(s, op))
    ensures |Do(s, op).ring.cells| == |s.ring.cells|
    ensures Do(s, op).offered == s.offered + Item(op)
  {
    hide Accounted;
    match op
    case Push(x) => PushAccounted(s, x);
    case Read =>
      ReadAccounted(s);
      assert s.offered + [] == s.offered;
  }

  function Run<T>(s: Log<T>, ops: seq<Op<T>>): (r: Log<T>)
    requires Accounted(s)
    ensures Accounted(r)
    decreases |ops|
  {
    if ops == [] then s else
      DoAccounted(s, ops[0]);
      Run(Do(s, ops[0]), ops[1..])
  }

  function Empty<T>(cells: seq<T>, at: nat): Log<T> {
    Log(Ring(cells, at, at), [], [], [])
  }

  function Item<T>(op: Op<T>): seq<T> { if op.Push? then [op.item] else [] }

  function Pushed<T>(ops: seq<Op<T>>): seq<T> {
    if ops == [] then [] else Item(ops[0]) + Pushed(ops[1..])
  }

  lemma {:induction false} RunKeeps<T>(s: Log<T>, ops: seq<Op<T>>)
    requires Accounted(s)
    ensures |Run(s, ops).ring.cells| == |s.ring.cells|
    ensures Run(s, ops).offered == s.offered + Pushed(ops)
    decreases |ops|
  {
    if ops == [] {
    } else {
      var s1 := Do(s, ops[0]);
      DoAccounted(s, ops[0]);
      RunKeeps(s1, ops[1..]);
      Regroup(s.offered, Item(ops[0]), Pushed(ops[1..]));
    }
  }

  lemma Regroup<T>(a: seq<T>, b: seq<T>, c: seq<T>)
    ensures (a + b) + c == a + (b + c)
  {
  }

  /** In every run from empty, of any mix of pushes and reads on any ring, the
      content is a suffix, at most N - 1 long, of what was pushed; everything
      older was either read, in order, or lost. */
  lemma RunIsFifoSuffix<T>(cells: seq<T>, at: nat, ops: seq<Op<T>>)
    requires |cells| >= 2 && at < |cells|
    ensures Accounted(Empty(cells, at))
    ensures var s := Run(Empty(cells, at), ops);
      && s.offered == Pushed(ops)
      && |Contents(s.ring)| <= |cells| - 1
      && |s.fates| + |Contents(s.ring)| == |Pushed(ops)|
      && Contents(s.ring) == Pushed(ops)[|s.fates|..]
      && s.got == Select(Pushed(ops), s.fates, {Taken})
  {
    var s0 := Empty(cells, at);
    RunKeeps(s0, ops);
    ContentsAt(Run(s0, ops).ring);
    assert [] + Pushed(ops) == Pushed(ops);
  }

  lemma {:induction false} PushesGrow<T>(s: Log<T>, ops: seq<Op<T>>)
    requires Accounted(s) && forall op :: op in ops ==> op.Push?
    ensures var total := |Contents(s.ring)| + |ops|;
      |Contents(Run(s, ops).ring)| == if total < |s.ring.cells| then total else |s.ring.cells| - 1
    decreases |ops|
  {
    ContentsAt(s.ring);
    if ops == [] {
    } else {
      DoAccounted(s, ops[0]);
      StoreRefines(s.ring, ops[0].item);
      PushesGrow(Do(s, ops[0]), ops[1..]);
    }
  }

  /** Pushes alone leave exactly the last N - 1 items, or all of them when there are fewer. */
  lemma PushesLeaveLast<T>(cells: seq<T>, at: nat, ops: seq<Op<T>>)
    requires |cells| >= 2 && at < |cells| && forall op :: op in ops ==> op.Push?
    ensures Accounted(Empty(cells, at))
    ensures var p := Pushed(ops);
      Contents(Run(Empty(cells, at), ops).ring)
      == if |p| < |cells| then p else p[|p| - (|cells| - 1)..]
  {
    RunIsFifoSuffix(cells, at, ops);
    PushesGrow(Empty(cells, at), ops);
    PushedAll(ops);
  }

  lemma {:induction false} PushedAll<T>(ops: seq<Op<T>>)
    requires forall op :: op in ops ==> op.Push?
    ensures |Pushed(ops)| == |ops|
    decreases |ops|
  {
    if ops == [] {
    } else {
      PushedAll(ops[1..]);
    }
  }
}
