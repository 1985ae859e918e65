/** The receive driver in its own form: static fields updated by calls and by the
    interrupt handler. Every method is tied to the step functions of EthRx. */
module EthRxDriver {
  import opened Common
  import opened DropOldest
  import opened MemoryMap
  import opened SgRing
  import opened EthRx

  /** Part way through a drain that began in `start`: these frames have been handed on
      and `left` remain. */
  ghost predicate Draining(start: Rx, s: Rx, frames: seq<Frame>, left: int) {
    && Inv(start) && Inv(s) && left == Queued(s)
    && frames + Waiting(s) == Waiting(start) && s.delivered == start.delivered + frames
  }

  lemma DrainStep(start: Rx, s: Rx, frames: seq<Frame>, left: int)
    requires Draining(start, s, frames, left) && left > 0
    ensures Ready(s, MTU)
    ensures Consume(s, MTU).delivered == s.delivered + [Waiting(s)[0]]
    ensures Draining(start, Consume(s, MTU), frames + [Waiting(s)[0]], left - 1)
  {
    TakeOldest(s);
    HandedOn(start, s, Consume(s, MTU), frames, Waiting(s)[0], left);
  }

  lemma HandedOn(start: Rx, s: Rx, s': Rx, frames: seq<Frame>, f: Frame, left: int)
    requires Draining(start, s, frames, left) && Inv(s') && Queued(s') == left - 1
    requires Waiting(s) == [f] + Waiting(s') && s'.delivered == s.delivered + [f]
    ensures Draining(start, s', frames + [f], left - 1)
  {
    var rest := Waiting(s');
    hide Inv, Queued, Waiting;
    assert frames + ([f] + rest) == frames + [f] + rest;
    assert start.delivered + frames + [f] == start.delivered + (frames + [f]);
  }

  class Driver {
    var head: nat
    var tail: nat
    var rxcount: nat
    var lostcount: nat
    var busErr: bool
    var dma: nat                    // the engine's current descriptor
    const slots: array<EthRx.Slot>
    ghost var received: seq<Frame>
    ghost var fates: seq<EthRx.Fate>
    ghost var delivered: seq<Frame>

    ghost function View(): Rx reads this, slots {
      Rx(Ring(slots[..], tail, head), dma, rxcount, lostcount, busErr, received, fates, delivered)
    }

    ghost predicate Ok() reads this, slots { Shaped(View()) }

    /** The driver start followed by the first set-up; `memory` is the buffer area as found. */
    constructor (memory: seq<seq<Byte>>)
      requires |memory| == ETH_BDS && forall b :: b in memory ==> |b| == MTU
      ensures fresh(slots) && View() == Boot(memory) && Inv(View())
    {
      slots := new EthRx.Slot[ETH_BDS](i requires 0 <= i < ETH_BDS => EthRx.Slot(false, 0, memory[i]));
      head, tail, dma := 0, 0, 0;
      rxcount, lostcount, busErr := 0, 0, false;
      received, fates, delivered := [], [], [];
      new;
      assert slots[..] == Boot(memory).ring.cells;
    }

    /** `ethdma_queue` on the receive indices: on an event, advance the head and, if it
        catches the tail, push the tail on and report a loss. */
    method Queue(event: bool) returns (lost: bool)
      requires Ok()
      modifies this`head, this`tail
      ensures Ok()
      ensures View().ring == if event then Advance(old(View().ring)) else old(View().ring)
      ensures lost == (event && old(Full(View().ring)))
    {
      lost := false;
      if !event {
        return;
      }
      var cq, nextQ := tail, head + 1;
      if nextQ == ETH_BDS {
        nextQ := 0;
      }
      if nextQ == cq {
        cq := cq + 1;
        lost := true;
        if cq == ETH_BDS {
          cq := 0;
        }
      }
      tail := cq;
      head := nextQ;
    }

    /** The receive interrupt: completion (ioc) and bus error (ioe) may come alone or together. */
    method OnRxIrq(ioc: bool, ioe: bool)
      requires Ok()
      modifies this
      ensures Ok()
      ensures View() == (if ioc then OnIrq(old(View())) else old(View())).(busErr := ioe)
    {
      if ioc {
        rxcount := (rxcount + 1) % WORD;
      }
      var lost := Queue(ioc);
      if lost {
        lostcount := (lostcount + 1) % WORD;
        fates := fates + [Dropped];
      }
      busErr := ioe;
    }

    /** The engine completes a frame in its current slot; the handler runs. */
    method Arrive(f: Frame)
      requires Ok() && |f| <= MTU
      modifies this, slots
      ensures Ok() && View() == FrameDone(old(View()), f)
    {
      ghost var s := View();
      slots[dma] := EthRx.Slot(true, |f|, f + slots[dma].bytes[|f|..]);
      dma := Next(dma, ETH_BDS);
      received := received + [f];
      assert View() == EngineDone(s, f);
      OnRxIrq(true, false);
    }

    /** `_ethdma_rxsgcmplt`: hand the oldest frame over, or nothing. */
    method TakeFrame(memLen: nat) returns (r: Option<Frame>)
      requires Ok()
      modifies this, slots
      ensures Ok() && View() == Consume(old(View()), memLen)
      ensures r.Some? == old(Ready(View(), memLen))
      ensures r.Some? ==> delivered == old(delivered) + [r.value]
    {
      var h, t := head, tail;
      if h == t {
        return None;
      }
      if !slots[t].cmplt {
        return None;
      }
      var transLen := slots[t].transLen;
      if transLen > memLen {
        return None;
      }
      slots[t] := slots[t].(transLen := 0);
      slots[t] := slots[t].(cmplt := false);
      r := Some(slots[t].bytes[..transLen]);
      var nextTail := t + 1;
      if nextTail == ETH_BDS {
        nextTail := 0;
      }
      tail := nextTail;
      fates := fates + [Delivered];
      delivered := delivered + [r.value];
    }

    /** `_ethdma_rxsgcyclic`; `halted` is the engine-idle test. Of the argument pairs that pass,
        the model covers the one both callers use, ten slots of one frame each. */
    method SetUp(allocLen: nat, ioBuff: nat, halted: bool) returns (ok: bool)
      requires Ok() && ioBuff > 0
      requires ArgsOk(allocLen, ioBuff) ==> allocLen == ETH_BDS * MTU && ioBuff == MTU
      modifies this, slots
      ensures Ok() && ok == (ArgsOk(allocLen, ioBuff) && halted) && View() == Reset(old(View()), ok)
    {
      if ioBuff % 4 != 0 || allocLen > IO_BUFFER_SIZE || allocLen < ioBuff || allocLen % ioBuff != 0 {
        return false;
      }
      if !halted {
        return false;
      }
      ghost var s := View();
      fates := fates + seq(Queued(s), _ => Discarded);
      tail := 0;
      head := 0;
      busErr := false;
      ClearSlots();
      dma := 0;
      assert slots[..] == Reset(s, true).ring.cells;
      return true;
    }

    /** The descriptors as the set-up leaves them; the buffers are not touched. */
    method ClearSlots()
      modifies slots
      ensures forall k :: 0 <= k < slots.Length ==> slots[k] == EthRx.Slot(false, 0, old(slots[k]).bytes)
    {
      var i := 0;
      while i < slots.Length
        invariant 0 <= i <= slots.Length
        invariant forall k :: 0 <= k < i ==> slots[k] == EthRx.Slot(false, 0, old(slots[k]).bytes)
        invariant forall k :: i <= k < slots.Length ==> slots[k] == old(slots[k])
      {
        slots[i] := slots[i].(transLen := 0, cmplt := false);
        i := i + 1;
      }
    }

    method QueueCount() returns (n: nat)
      requires Ok()
      ensures n == Queued(View())
    {
      QCountIsQueued(View());
      n := QCount(head, tail);
    }

    /** The drain loop of `lwip_ethInput`: it samples the queue length and consumes that
        many frames. Left undisturbed it empties the queue and hands on every waiting
        frame, in order. */
    method Input() returns (frames: seq<Frame>)
      requires Inv(View())
      modifies this, slots
      ensures Inv(View()) && Queued(View()) == 0
      ensures frames == old(Waiting(View())) && delivered == old(delivered) + frames
    {
      frames := [];
      ghost var start := View();
      var count := QueueCount();
      assert Draining(start, start, [], count);
      var going := count > 0;
      while going
        invariant Draining(start, View(), frames, count) && going == (count > 0)
        decreases count
      {
        count := count - 1;
        ghost var s := View();
        DrainStep(start, s, frames, count + 1);
        var r := TakeFrame(MTU);
        assert r.Some?;
        if r == None {
          break;
        }
        assert r.value == delivered[|s.delivered|] == EthRx.Waiting(s)[0];
        frames := frames + [r.value];
        going := count > 0;
      }
    }
  }
}
