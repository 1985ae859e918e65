/** Storing a burst, as an interrupt handler that drains a hardware FIFO does. */
module Burst {
  import opened DropOldest

  function StoreAll<T>(r: Ring<T>, xs: seq<T>): (r': Ring<T>)
    requires Valid(r)
    ensures Valid(r') && |r'.cells| == |r.cells|
    decreases |xs|
  {
    if xs == [] then r else
      StoreRefines(r, xs[0]);
      StoreAll(Store(r, xs[0]), xs[1..])
  }

  lemma {:induction false} StoreAllLast<T>(r: Ring<T>, xs: seq<T>, x: T)
    requires Valid(r)
    ensures StoreAll(r, xs + [x]) == Store(StoreAll(r, xs), x)
    decreases |xs|
  {
    if xs == [] {
      assert StoreAll(Store(r, x), []) == Store(r, x) by { StoreRefines(r, x); }
      assert ([] + [x])[1..] == [];
    } else {
      StoreRefines(r, xs[0]);
      StoreAllLast(Store(r, xs[0]), xs[1..], x);
      assert (xs + [x])[1..] == xs[1..] + [x];
    }
  }

  /** The newest n - 1 items of a list. */
  function Newest<T>(all: seq<T>, n: nat): seq<T>
    requires n >= 1
  {
    if |all| < n then all else all[|all| - (n - 1)..]
  }

  lemma NewestOffer<T>(q: seq<T>, xs: seq<T>, n: nat)
    requires n >= 2 && |q| < n && xs != []
    ensures Newest(Offer(q, xs[0], n) + xs[1..], n) == Newest(q + xs, n)
  {
    var all, all1 := q + xs, Offer(q, xs[0], n) + xs[1..];
    assert all1 == if |q| < n - 1 then all else all[1..];
  }

  /** A burst of any length leaves the newest N - 1 of what was queued and what arrived. */
  lemma {:induction false} StoreAllKeepsNewest<T>(r: Ring<T>, xs: seq<T>)
    requires Valid(r)
    ensures Contents(StoreAll(r, xs)) == Newest(Contents(r) + xs, |r.cells|)
    decreases |xs|
  {
    ContentsAt(r);
    if xs == [] {
      assert Contents(r) + xs == Contents(r);
    } else {
      StoreRefines(r, xs[0]);
      StoreAllKeepsNewest(Store(r, xs[0]), xs[1..]);
      NewestOffer(Contents(r), xs, |r.cells|);
    }
  }
}

/** The AVR receiver: an interrupt per byte, and a reader inside an atomic block. */
module AvrUart {
  import opened Common
  import opened DropOldest

  const RING_SIZE: nat := 8

  class Uart {
    var tail: nat
    var head: nat
    const ring: array<Byte>

    ghost predicate Ok() reads this, ring {
      ring.Length == RING_SIZE && Valid(View())
    }

    ghost function View(): Ring<Byte> reads this, ring { Ring(ring[..], head, tail) }

    constructor ()
      ensures Ok() && fresh(ring) && Contents(View()) == []
    {
      ring := new Byte[RING_SIZE](_ => 0);
      head, tail := 0, 0;
    }

    /** The reader gets the oldest byte, or NUL when there is none. */
    method Read() returns (c: Byte)
      requires Ok()
      modifies this
      ensures Ok() && ring[..] == old(ring[..])
      ensures old(Contents(View())) == [] ==> c == 0 && View() == old(View())
      ensures var q := old(Contents(View())); q != [] ==> c == q[0] && Contents(View()) == q[1..]
      ensures old(Contents(View())) != [] ==> View() == Remove(old(View()))
    {
      if head == tail {
        return 0;
      }
      RemoveRefines(View());
      c := ring[head];
      head := head + 1;
      if head == RING_SIZE {
        head := 0;
      }
    }

    /** Receive interrupt; `lineError` is a frame error or data overrun in the status byte. */
    method OnReceive(lineError: bool, c: Byte)
      requires Ok()
      modifies this, ring
      ensures Ok()
      ensures View() == if lineError then old(View()) else Store(old(View()), c)
      ensures Contents(View()) == old(if lineError then Contents(View())
                                      else Offer(Contents(View()), c, RING_SIZE))
    {
      if lineError {
        return;
      }
      ghost var r := View();
      var nextTail := tail + 1;
      if nextTail == RING_SIZE {
        nextTail := 0;
      }
      if nextTail == head {
        head := head + 1;
        if head == RING_SIZE {
          head := 0;
        }
      }
      ring[tail] := c;
      tail := nextTail;
      assert View() == Store(r, c);
      StoreRefines(r, c);
    }
  }
}

/** The MicroBlaze UART Lite receiver: one interrupt drains the hardware FIFO. */
module XUart {
  import opened Common
  import opened DropOldest
  import opened Burst

  const RX_BUFFER: nat := 8

  class Uart {
    var tail: nat
    var head: nat
    const ring: array<Byte>

    ghost predicate Ok() reads this, ring {
      ring.Length == RX_BUFFER && Valid(View())
    }

    ghost function View(): Ring<Byte> reads this, ring { Ring(ring[..], head, tail) }

    constructor ()
      ensures Ok() && fresh(ring) && Contents(View()) == []
    {
      ring := new Byte[RX_BUFFER](_ => 0);
      head, tail := 0, 0;
    }

    method Read() returns (c: Byte)
      requires Ok()
      modifies this
      ensures Ok() && ring[..] == old(ring[..])
      ensures old(Contents(View())) == [] ==> c == 0 && View() == old(View())
      ensures var q := old(Contents(View())); q != [] ==> c == q[0] && Contents(View()) == q[1..]
      ensures old(Contents(View())) != [] ==> View() == Remove(old(View()))
    {
      if head == tail {
        return 0;
      }
      RemoveRefines(View());
      var rxHead := head;
      c := ring[rxHead];
      rxHead := rxHead + 1;
      if rxHead == RX_BUFFER {
        rxHead := 0;
      }
      head := rxHead;
    }

    /** `fifo` is what the hardware FIFO yields before it reports empty. */
    method OnIrq(fifo: seq<Byte>)
      requires Ok()
      modifies this, ring
      ensures Ok()
      ensures View() == StoreAll(old(View()), fifo)
      ensures Contents(View()) == Newest(old(Contents(View())) + fifo, RX_BUFFER)
    {
      ghost var start := View();
      StoreAllKeepsNewest(start, fifo);
      if |fifo| == 0 {
        return;
      }
      var i := 0;
      while i < |fifo|
        invariant 0 <= i <= |fifo| && Ok()
        invariant View() == StoreAll(start, fifo[..i])
      {
        ghost var r := View();
        var c := fifo[i];
        var nextTail := tail + 1;
        if nextTail == RX_BUFFER {
          nextTail := 0;
        }
        if nextTail == head {
          head := head + 1;
          if head == RX_BUFFER {
            head := 0;
          }
        }
        ring[tail] := c;
        tail := nextTail;
        assert View() == Store(r, c);
        StoreAllLast(start, fifo[..i], c);
        assert fifo[..i + 1] == fifo[..i] + [c];
        i := i + 1;
      }
      assert fifo[..i] == fifo;
    }
  }
}
