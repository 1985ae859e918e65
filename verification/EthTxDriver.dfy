/** The transmit driver in its own form, over descriptors laid out by SgRing and the
    transmit buffer area as flat memory. Every method is tied to the steps of EthTx. */
module EthTxDriver {
  import opened Common
  import opened MemoryMap
  import opened SgRing
  import opened EthTx

  /** The slots that descriptors and buffer area make up. */
  ghost function Slots(descs: seq<Desc>, mem: seq<Byte>): seq<TxSlot>
    requires |descs| == ETH_BDS && |mem| == ETH_BDS * MTU
  {
    seq(ETH_BDS, i requires 0 <= i < ETH_BDS => TxSlot(descs[i].bufferLen, mem[i * MTU..(i + 1) * MTU]))
  }

  /** The area after data has been copied to offset `at`. */
  ghost function Patched(mem: seq<Byte>, at: nat, data: seq<Byte>): seq<Byte>
    requires at + |data| <= |mem|
  {
    mem[..at] + data + mem[at + |data|..]
  }

  lemma PatchNext(mem: seq<Byte>, at: nat, data: seq<Byte>, i: nat)
    requires at + |data| <= |mem| && i < |data|
    ensures Patched(mem, at, data[..i])[at + i := data[i]] == Patched(mem, at, data[..i + 1])
  {
    assert data[..i + 1] == data[..i] + [data[i]];
  }

  /** A copy is invisible below and above where it lands. */
  lemma PatchedElsewhere(mem: seq<Byte>, at: nat, data: seq<Byte>, lo: nat, hi: nat)
    requires at + |data| <= |mem| && lo <= hi <= |mem| && (hi <= at || at + |data| <= lo)
    ensures Patched(mem, at, data)[lo..hi] == mem[lo..hi]
  {
    var was, new' := mem[lo..hi], Patched(mem, at, data)[lo..hi];
    forall i | 0 <= i < hi - lo ensures new'[i] == was[i] {
      assert was[i] == mem[lo + i] && new'[i] == Patched(mem, at, data)[lo + i];
    }
  }

  /** A range that begins where a copy lands holds the data and then what it held before. */
  lemma PatchedHere(mem: seq<Byte>, at: nat, data: seq<Byte>, hi: nat)
    requires at + |data| <= hi <= |mem|
    ensures Patched(mem, at, data)[at..hi] == data + mem[at..hi][|data|..]
  {
    var was, new' := data + mem[at..hi][|data|..], Patched(mem, at, data)[at..hi];
    forall i | 0 <= i < hi - at ensures new'[i] == was[i] {
      assert new'[i] == Patched(mem, at, data)[at + i];
    }
  }

  /** Different slots do not overlap. */
  lemma SlotsOrdered(i: nat, t: nat)
    requires i < t < ETH_BDS
    ensures i * MTU <= (i + 1) * MTU <= t * MTU <= (t + 1) * MTU <= ETH_BDS * MTU
  {
  }

  /** A copy within slot t and a new length in its descriptor change slot t only. */
  lemma SlotsPatched(descs: seq<Desc>, mem: seq<Byte>, t: nat, data: seq<Byte>, d: Desc)
    requires |descs| == ETH_BDS && |mem| == ETH_BDS * MTU && t < ETH_BDS && |data| <= MTU && d.bufferLen == |data|
    ensures var slots := Slots(descs, mem);
      Slots(descs[t := d], Patched(mem, t * MTU, data)) == slots[t := TxSlot(|data|, data + slots[t].bytes[|data|..])]
  {
    var slots, slots' := Slots(descs, mem), Slots(descs[t := d], Patched(mem, t * MTU, data));
    forall i | 0 <= i < ETH_BDS ensures slots'[i] == slots[t := TxSlot(|data|, data + slots[t].bytes[|data|..])][i] {
      if i == t {
        PatchedHere(mem, t * MTU, data, (t + 1) * MTU);
      } else {
        SlotsOrdered(if i < t then i else t, if i < t then t else i);
        PatchedElsewhere(mem, t * MTU, data, i * MTU, (i + 1) * MTU);
      }
    }
  }

  /** A fresh ring gives every slot the length of a chunk, leaves the buffers, and has no frame
      pending. */
  lemma SlotsRebuilt(was: seq<Desc>, descs: seq<Desc>, mem: seq<Byte>)
    requires |was| == |descs| == ETH_BDS && |mem| == ETH_BDS * MTU
    requires IsRing(descs, ETH_TX_RING, ETH_TX_IO, MTU, ETH_BDS)
    ensures Slots(descs, mem)
         == seq(ETH_BDS, i requires 0 <= i < ETH_BDS => TxSlot(MTU, Slots(was, mem)[i].bytes))
    ensures Linked(descs, ETH_TX_RING, ETH_TX_IO, MTU, ETH_BDS) && Prepared(descs, 0, 0)
  {
  }

  lemma RingLinked(descs: seq<Desc>, t: nat, d: Desc)
    requires Linked(descs, ETH_TX_RING, ETH_TX_IO, MTU, ETH_BDS) && t < |descs|
    requires d.next == descs[t].next && d.buffer == descs[t].buffer
    ensures Linked(descs[t := d], ETH_TX_RING, ETH_TX_IO, MTU, ETH_BDS)
  {
  }

  /** A descriptor the engine sends whole: one frame from start to end, not yet done with. */
  predicate Sendable(d: Desc) { d.sof && d.eof && !d.cmplt && d.transLen == 0 }

  /** The descriptors of the pending frames: those fetched are complete, the rest sendable. */
  predicate Prepared(descs: seq<Desc>, fetched: nat, pending: nat) {
    && fetched <= pending <= |descs|
    && (forall j :: 0 <= j < fetched ==> descs[j].cmplt)
    && (forall j :: fetched <= j < pending ==> Sendable(descs[j]))
  }

  lemma OnePrepared(descs: seq<Desc>, t: nat, d: Desc)
    requires Prepared(descs, 0, t) && t < |descs| && Sendable(d)
    ensures Prepared(descs[t := d], 0, t + 1)
  {
  }

  lemma OneFetched(descs: seq<Desc>, t: nat, pending: nat, d: Desc)
    requires Prepared(descs, t, pending) && t < pending && d.cmplt
    ensures Prepared(descs[t := d], t + 1, pending)
  {
  }

  /** The frames the engine puts on the wire for a descriptor: none if it finds the frame cut
      in pieces or the descriptor already complete. */
  function Sends(d: Desc, buffer: seq<Byte>): seq<Frame>
    requires d.bufferLen <= |buffer|
  {
    if d.sof && d.eof && !d.cmplt then [buffer[..d.bufferLen]] else []
  }

  /** The status the engine writes back changes no slot. */
  lemma SlotsFetched(descs: seq<Desc>, mem: seq<Byte>, t: nat, d: Desc)
    requires |descs| == ETH_BDS && |mem| == ETH_BDS * MTU && t < ETH_BDS && d.bufferLen == descs[t].bufferLen
    ensures Slots(descs[t := d], mem) == Slots(descs, mem)
  {
  }

  lemma EngineFacts(m: Tx)
    requires Inv(m)
    ensures m.fetched <= Pending(m) && (m.tail != LOCKED ==> m.fetched == 0)
    ensures m.inflight && m.fetched < m.limit ==>
      m.depth == ETH_BDS && m.fetched < Pending(m) < ETH_BDS && m.slots[m.fetched].bufferLen <= MTU
  {
  }

  /** What the engine finds at descriptor t, and leaves there. */
  lemma FetchOne(descs: seq<Desc>, mem: seq<Byte>, t: nat, pending: nat)
    requires |descs| == ETH_BDS && |mem| == ETH_BDS * MTU && t < pending < ETH_BDS
    requires Linked(descs, ETH_TX_RING, ETH_TX_IO, MTU, ETH_BDS) && Prepared(descs, t, pending)
    requires Slots(descs, mem)[t].bufferLen <= MTU
    ensures descs[t].buffer == ETH_TX_IO + t * MTU && descs[t].next == DescAddr(ETH_TX_RING, t + 1)
    ensures t * MTU + MTU <= |mem| && descs[t].bufferLen <= MTU
    ensures var slot := Slots(descs, mem)[t];
      slot.bufferLen <= |slot.bytes|
      && Sends(descs[t], mem[t * MTU..t * MTU + MTU]) == [slot.bytes[..slot.bufferLen]]
    ensures var descs' := descs[t := descs[t].(cmplt := true, transLen := descs[t].bufferLen)];
      && Slots(descs', mem) == Slots(descs, mem) && Prepared(descs', t + 1, pending)
      && Linked(descs', ETH_TX_RING, ETH_TX_IO, MTU, ETH_BDS)
  {
    var d := descs[t].(cmplt := true, transLen := descs[t].bufferLen);
    OneFetched(descs, t, pending, d);
    SlotsFetched(descs, mem, t, d);
    RingLinked(descs, t, d);
    assert mem[t * MTU..t * MTU + MTU] == mem[t * MTU..(t + 1) * MTU];
  }

  class Driver {
    var tail: nat
    var pkts: nat
    var depth: nat
    var txcount: nat
    var busErr: bool
    var running: bool                 // the engine has been handed a batch
    var currDesc: nat                 // its current register: address of the next descriptor
    var lastDesc: nat                 // its tail register: address of the batch's last descriptor
    const descs: array<Desc>
    const mem: array<Byte>            // the area at ETH_TX_IO
    ghost var limit: nat
    ghost var fetched: nat
    ghost var accepted: seq<Frame>
    ghost var fates: seq<EthTx.Fate>
    ghost var wire: seq<Frame>

    ghost function View(): Tx
      requires descs.Length == ETH_BDS && mem.Length == ETH_BDS * MTU
      reads this, descs, mem
    {
      Tx(tail, pkts, depth, txcount, Slots(descs[..], mem[..]), running, limit, fetched, Idle, accepted, fates, wire)
    }

    ghost predicate Ok() reads this, descs, mem {
      && descs.Length == ETH_BDS && mem.Length == ETH_BDS * MTU
      && (depth == ETH_BDS ==> Linked(descs[..], ETH_TX_RING, ETH_TX_IO, MTU, ETH_BDS))
      && (running ==> currDesc == DescAddr(ETH_TX_RING, fetched))
      && (running ==> limit > 0 && lastDesc == DescAddr(ETH_TX_RING, limit - 1))
      && Inv(View()) && Prepared(descs[..], fetched, Pending(View()))
    }

    /** The driver start: nothing set up, so every enqueue is refused until `SetUp`. */
    constructor ()
      ensures Ok() && fresh(descs) && fresh(mem) && Booted(View())
    {
      descs := new Desc[ETH_BDS](_ => ZERO);
      mem := new Byte[ETH_BDS * MTU](_ => 0);
      tail, pkts, depth, txcount := 0, 0, 0, 0;
      busErr, running, currDesc, lastDesc := false, false, 0, 0;
      limit, fetched, accepted, fates, wire := 0, 0, [], [], [];
    }

    /** memcpy into the transmit area. */
    method Copy(at: nat, data: seq<Byte>)
      requires at + |data| <= mem.Length
      modifies mem
      ensures mem[..] == Patched(old(mem[..]), at, data)
    {
      var i := 0;
      while i < |data|
        invariant 0 <= i <= |data|
        invariant mem[..] == Patched(old(mem[..]), at, data[..i])
      {
        PatchNext(old(mem[..]), at, data, i);
        mem[at + i] := data[i];
        i := i + 1;
      }
      assert data[..i] == data;
    }

    /** The tests of an enqueue, and the slot it may use. */
    method Admit(len: nat) returns (ok: bool)
      requires Ok() && len <= NO_WRAP
      ensures ok <==> depth != 0 && tail != LOCKED && tail < ETH_BDS - 1 && len < MTU
      ensures ok ==> descs[tail].buffer == ETH_TX_IO + tail * MTU
    {
      var t := tail;
      if t == depth || t == LOCKED {
        return false;
      }
      AdmittedCopyStaysInSlot(descs[..], ETH_TX_RING, ETH_TX_IO, MTU, ETH_BDS, t, len);
      RingNext(descs[..], ETH_TX_RING, ETH_TX_IO, MTU, ETH_BDS, t);
      var ioBuffer := descs[t].buffer;
      var nextIoBuffer := descs[(descs[t].next - ETH_TX_RING) / DESC_SIZE].buffer;
      return AddressesAdmit(ioBuffer, nextIoBuffer, len);
    }

    /** A descriptor prepared for a frame of so many bytes. */
    static function Sent(d: Desc, len: nat): Desc {
      d.(cmplt := false, transLen := 0, sof := true, eof := true, bufferLen := len)
    }

    /** Copy the frame into slot t and prepare its descriptor. */
    method FillSlot(t: nat, data: Frame)
      requires descs.Length == ETH_BDS && mem.Length == ETH_BDS * MTU && t < ETH_BDS && |data| <= MTU
      requires descs[t].buffer == ETH_TX_IO + t * MTU
      modifies descs, mem
      ensures descs[..] == old(descs[..])[t := Sent(old(descs[t]), |data|)]
      ensures mem[..] == Patched(old(mem[..]), t * MTU, data)
    {
      Copy(descs[t].buffer - ETH_TX_IO, data);
      descs[t] := descs[t].(cmplt := false, transLen := 0);
      descs[t] := descs[t].(sof := true, eof := true);
      descs[t] := descs[t].(bufferLen := |data|);
    }

    /** `_ethdma_txsgenque` is an undisturbed enqueue of the protocol: the frame lands whole in
        its slot, and no other byte, descriptor or index changes. */
    method Enqueue(data: Frame) returns (ok: bool)
      requires Ok() && |data| <= NO_WRAP
      modifies this`tail, this`accepted, descs, mem
      ensures Ok() && ok == Accepts(old(View()), data)
      ensures View() == Enqueued(old(View()), data)
      ensures ok ==> Sendable(descs[old(tail)]) && descs[old(tail)].bufferLen == |data|
      ensures forall j :: 0 <= j < ETH_BDS && !(ok && j == old(tail)) ==> descs[j] == old(descs[j])
    {
      ok := Admit(|data|);
      ghost var m := View();
      ghost var sts := EnqueueAlone(m, data);
      hide EthTx.Inv, Slots, DescAddr, IsRing, Prepared;
      if !ok {
        return;
      }
      var t := tail;
      SlotsPatched(descs[..], mem[..], t, data, Sent(descs[t], |data|));
      RingLinked(descs[..], t, Sent(descs[t], |data|));
      OnePrepared(descs[..], t, Sent(descs[t], |data|));
      FillSlot(t, data);
      tail := tail + 1;
      accepted := accepted + [data];
      assert View() == Enqueued(m, data);
    }

    /** `_ethdma_txsgflush` is an undisturbed flush of the protocol; the engine's registers
        name exactly the filled descriptors. */
    method Flush()
      requires Ok()
      modifies this`tail, this`pkts, this`running, this`currDesc, this`lastDesc, this`limit, this`fetched
      ensures Ok() && View() == Flushed(old(View()))
      ensures running && !old(running) ==>
        currDesc == DescAddr(ETH_TX_RING, 0) && lastDesc == DescAddr(ETH_TX_RING, old(tail) - 1)
    {
      hide Inv, Linked, Slots, Run, Runnable, Prepared;
      ghost var m := View();
      EngineFacts(m);
      ghost var sts := FlushAlone(m);
      var t := tail;
      if t == 0 || t == LOCKED {
        return;
      }
      pkts := tail;
      tail := LOCKED;
      currDesc, lastDesc := ETH_TX_RING, DescAddr(ETH_TX_RING, t - 1);
      running := true;
      limit, fetched := t, 0;
    }

    /** The transmit interrupt. A completion that meets the environment's terms is the
        protocol's completion step; an error alone only sets the flag. */
    method OnTxIrq(ioc: bool, ioe: bool)
      requires Ok() && (ioc ==> Enabled(View(), Done))
      modifies this
      ensures Ok() && busErr == ioe
      ensures View() == if ioc then Do(old(View()), Done) else old(View())
    {
      hide Inv, Linked, Slots, DescAddr, Do, Prepared;
      if ioc {
        Confirm();
      }
      busErr := ioe;
    }

    /** The handler's work on a completion. */
    method Confirm()
      requires Ok() && Enabled(View(), Done)
      modifies this`tail, this`pkts, this`txcount, this`running, this`fetched, this`fates
      ensures Ok() && View() == Do(old(View()), Done)
    {
      hide Inv, Linked, Slots, DescAddr;
      DoneKeeps(View());
      fates := fates + seq(pkts, _ => Fate.Sent);
      fetched := 0;
      txcount := (txcount + pkts) % WORD;
      tail := 0;
      pkts := 0;
      running := false;
    }

    /** The engine: it reads the descriptor at its current address, sends from the buffer
        that this names, writes the status back and moves on to the next address in it. */
    method Fetch()
      requires Ok() && Enabled(View(), TStep.Fetch)
      modifies this`wire, this`fetched, this`currDesc, descs
      ensures Ok() && View() == Do(old(View()), TStep.Fetch)
    {
      hide Inv, Linked, Slots, Prepared, Sends;
      EngineFacts(View());
      FetchKeeps(View());
      var j := (currDesc - ETH_TX_RING) / DESC_SIZE;
      assert j == fetched;
      FetchOne(descs[..], mem[..], j, Pending(View()));
      var d := descs[j];
      var at := d.buffer - ETH_TX_IO;
      wire := wire + Sends(d, mem[at..at + MTU]);
      descs[j] := d.(cmplt := true, transLen := d.bufferLen);
      currDesc := d.next;
      fetched := fetched + 1;
    }

    /** `_ethdma_trxstop`. */
    method Stop()
      requires Ok()
      modifies this`running
      ensures Ok() && View() == Do(old(View()), TStep.Stop)
    {
      DoKeeps(View(), TStep.Stop);
      running := false;
    }

    /** `_ethdma_txsgnormal`; `halted` is the engine-idle test, which no engine with a batch in
        flight passes. Of the argument pairs that pass, the model covers the one both callers
        use. */
    method SetUp(allocLen: nat, ioBuff: nat, halted: bool) returns (ok: bool)
      requires Ok() && ioBuff > 0 && (halted ==> !running)
      requires ArgsOk(allocLen, ioBuff) ==> allocLen == ETH_BDS * MTU && ioBuff == MTU
      modifies this, descs
      ensures Ok() && ok == (ArgsOk(allocLen, ioBuff) && halted)
      ensures View() == if ok then Do(old(View()), Setup(true)) else old(View())
      ensures ok ==> !busErr && IsRing(descs[..], ETH_TX_RING, ETH_TX_IO, MTU, ETH_BDS)
    {
      hide Inv, IsRing, Linked, Slots, DescAddr;
      if ioBuff % 4 != 0 || allocLen > IO_BUFFER_SIZE || allocLen < ioBuff || allocLen % ioBuff != 0 {
        return false;
      }
      if !halted {
        return false;
      }
      Rebuild(allocLen, ioBuff);
      return true;
    }

    /** The set-up proper, past all its tests. */
    method Rebuild(allocLen: nat, ioBuff: nat)
      requires Ok() && !running && allocLen == ETH_BDS * MTU && ioBuff == MTU
      modifies this, descs
      ensures Ok() && !busErr && View() == Do(old(View()), Setup(true))
      ensures IsRing(descs[..], ETH_TX_RING, ETH_TX_IO, MTU, ETH_BDS)
    {
      hide Inv, IsRing, Linked, Slots, DescAddr, Prepared;
      ghost var m, was := View(), descs[..];
      EngineFacts(m);
      SetupKeeps(m);
      depth := Build(descs, ETH_TX_RING, ETH_TX_IO, allocLen, ioBuff);
      SlotsRebuilt(was, descs[..], mem[..]);
      fates := fates + seq(fetched, _ => CutSent) + seq(Pending(m) - fetched, _ => CutUnsent);
      fetched := 0;
      tail := 0;
      busErr := false;
    }
  }
}
