/** The sound service in its own form: static fields updated by a switch that calls
    itself. The DMA side is one value; memset and file reads update a buffer of it. */
module SoundDriver {
  import opened Common
  import opened MemoryMap
  import opened Sound

  class SbService {
    var reg: nat
    var fd: int
    var playsize: nat
    var playcount: nat
    var dma: Dma
    var bufferLen: nat              // in both descriptors
    // the open file
    var file: seq<Byte>
    var pos: nat
    ghost var out: seq<Byte>
    ghost var ticks: nat
    ghost var handed: seq<int>
    ghost var closed: seq<int>

    /** While a playback is on, the descriptors are those of the last engine start. */
    ghost predicate Ok() reads this {
      Shaped(View()) && (reg == SB_WAIT || reg == SB_WRITE ==> bufferLen == CHUNK)
    }

    ghost function View(): Sb reads this {
      Sb(reg, fd, playsize, playcount, dma, file, pos, out, ticks, handed, closed)
    }

    /** Static data is zero at boot: the first call will initialise. */
    constructor ()
      ensures Ok() && Booted(View()) && Sound.Inv(View())
    {
      bufferLen := 0;
      reg, fd, playsize, playcount := SB_INIT, 0, 0, 0;
      dma := Started(Dma(false, [], [], 0, false, false)).(running := false);
      file, pos, out, ticks, handed, closed := [], 0, [], 0, [], [];
    }

    /** `_sbdma_sgcmplt`: walk the ring from its start to the first complete descriptor; give
        it up, result 2, if there is none or its buffer has another length. */
    method TakeComplete(len: nat) returns (i: nat)
      requires |dma.done| == 2
      modifies this`dma
      ensures i == if bufferLen == len then FirstDone(old(dma.done)) else 2
      ensures dma == if i < 2 then old(dma).(done := old(dma.done)[i := false], cmplt := false) else old(dma)
    {
      i := 0;
      while i < SOUND_BDS && !dma.done[i]
        invariant 0 <= i <= 2 && forall k :: 0 <= k < i ==> !dma.done[k]
      {
        i := i + 1;
      }
      if i == SOUND_BDS {
        return;
      }
      if bufferLen != len {
        return 2;
      }
      dma := dma.(done := dma.done[i := false], cmplt := false);
    }

    /** The read of the write state: a chunk, or less at the end. */
    method ReadNext() returns (data: seq<Byte>)
      requires Shaped(View())
      modifies this`playsize, this`pos
      ensures var n := ReadSize(old(View()));
        && data == file[old(pos)..old(pos) + n] && |data| == n
        && pos == old(pos) + n && playsize == old(playsize) - n
    {
      var request := if playsize > CHUNK then CHUNK else playsize;
      var n := Min(request, |file| - pos);
      data := file[pos..pos + n];
      pos := pos + n;
      playsize := playsize - n;
    }

    /** A read of these bytes into a buffer, and silence over the rest of it. */
    static method Padded(buffer: seq<Byte>, data: seq<Byte>) returns (b: seq<Byte>)
      requires |data| <= |buffer| == CHUNK
      ensures b == data + Silence(CHUNK - |data|)
    {
      var n := |data|;
      b := data + buffer[n..];
      if n == 0 {
        b := Silence(CHUNK);
      } else if n < CHUNK {
        b := b[..n] + Silence(CHUNK - n);
      }
    }

    /** The write state, up to its recursion. */
    method Write()
      requires Ok() && reg == SB_WRITE
      modifies this`reg, this`dma, this`playsize, this`pos
      ensures Ok() && View() == Written(old(View()))
    {
      hide Silence;
      reg := SB_WAIT;
      var i := TakeComplete(CHUNK);
      if i == 2 {
        reg := SB_CLOSE;
        return;
      }
      Refill(i);
    }

    /** Buffer i is free: read into it, or make for the close state. */
    method Refill(i: nat)
      requires Shaped(View()) && i < 2
      modifies this`reg, this`dma, this`playsize, this`pos
      ensures var s := old(View());
        View() == if ReadSize(s) == 0 && s.playcount == 0 then s.(reg := SB_CLOSE)
                  else s.(dma := s.dma.(bufs := Refilled(s, i).dma.bufs),
                          playsize := Refilled(s, i).playsize, pos := Refilled(s, i).pos)
    {
      hide Silence;
      var data := ReadNext();
      if data == [] && playcount == 0 {
        reg := SB_CLOSE;
        return;
      }
      var buffer := Padded(dma.bufs[i], data);
      dma := dma.(bufs := dma.bufs[i := buffer]);
    }

    /** One call of the service: a switch whose states may call the service again. It
        terminates because every such call lowers the rank of the state. */
    method Service(pending: bool, dmaOk: bool)
      requires Ok()
      modifies this
      ensures Ok() && View() == Sound.Service(old(View()), pending, dmaOk)
      decreases Rank(reg), 1
    {
      if reg == SB_INIT {
        fd := -1;
        playsize := 0;
        playcount := 0;
        reg := SB_IDLE;
      } else if reg == SB_IDLE {
        OnIdle(pending, dmaOk);
      } else if reg == SB_WAIT {
        OnWait(pending, dmaOk);
      } else if reg == SB_WRITE {
        OnWrite(pending, dmaOk);
      } else if reg == SB_CLOSE {
        OnClose(pending, dmaOk);
      } else {
        reg := SB_INIT;
        Service(pending, dmaOk);
      }
    }

    method OnIdle(pending: bool, dmaOk: bool)
      requires Ok() && reg == SB_IDLE
      modifies this
      ensures Ok() && View() == Sound.Service(old(View()), pending, dmaOk)
      decreases Rank(reg), 0
    {
      if fd < 0 {
        return;
      }
      playcount := (playcount + 1) % WORD;
      reg := SB_WAIT;
      if dmaOk {
        dma := Started(dma);
        bufferLen := CHUNK;
      } else {
        reg := SB_CLOSE;
        Service(pending, dmaOk);
      }
    }

    method OnWait(pending: bool, dmaOk: bool)
      requires Ok() && reg == SB_WAIT
      modifies this
      ensures Ok() && View() == Sound.Service(old(View()), pending, dmaOk)
      decreases Rank(reg), 0
    {
      if !pending {
        return;
      }
      if dma.busErr {
        reg := SB_CLOSE;
      } else if dma.cmplt {
        reg := SB_WRITE;
        playcount := (playcount - 1) % WORD;
        Service(pending, dmaOk);
      }
    }

    method OnWrite(pending: bool, dmaOk: bool)
      requires Ok() && reg == SB_WRITE
      modifies this
      ensures Ok() && View() == Sound.Service(old(View()), pending, dmaOk)
      decreases Rank(reg), 0
    {
      Write();
      if reg == SB_CLOSE {
        Service(pending, dmaOk);
      }
    }

    method OnClose(pending: bool, dmaOk: bool)
      requires Ok() && reg == SB_CLOSE
      modifies this
      ensures Ok() && View() == Sound.Service(old(View()), pending, dmaOk)
      decreases Rank(reg), 0
    {
      reg := SB_INIT;
      if fd >= 0 {
        closed := closed + [fd];
      }
      dma := dma.(running := false);
      Service(pending, dmaOk);
    }

    /** The tail of the play command: the packets for the samples, rounded up, and one more. */
    method Play(ifd: nat, samples: nat, data: seq<Byte>)
      requires Ok()
      modifies this
      ensures Ok() && View() == Sound.Play(old(View()), ifd, samples, data)
    {
      var count := samples / CHUNK;
      if samples % CHUNK > 0 {
        count := count + 1;
      }
      count := count + 1;
      assert count == Chunks(samples) + 1;
      hide Chunks;
      fd := ifd;
      playcount := count;
      playsize := samples;
      file, pos := data, 0;
      out, ticks, handed := [], 0, handed + [ifd];
    }
  }
}
