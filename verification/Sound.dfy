/** The sound service: a self-recursive state machine that double-buffers a file into a
    two-descriptor cyclic DMA ring and counts completions down to know when to stop.

    Environment: a read returns min(request, bytes left); a file is handed over only while
    the service is idle with none; the test that starts the engine is an input. */
module Sound {
  import opened Common
  import opened MemoryMap

  const CHUNK: nat := 8192
  const SILENT: Byte := 0x80

  const SB_INIT: nat := 0
  const SB_IDLE: nat := 1
  const SB_WAIT: nat := 2
  const SB_WRITE: nat := 3
  const SB_CLOSE: nat := 4

  /** Engine and descriptors: `cur` is the buffer being played, `done` the complete bits,
      `cmplt` and `busErr` the flags the interrupt handler sets. */
  datatype Dma = Dma(running: bool, bufs: seq<seq<Byte>>, done: seq<bool>, cur: nat, cmplt: bool, busErr: bool)

  /** `file`/`pos` is the open file, `out`/`ticks` what this playback has output so far;
      `handed`/`closed` log the descriptors handed to and closed by the service. */
  datatype Sb = Sb(reg: nat, fd: int, playsize: nat, playcount: nat, dma: Dma,
                   file: seq<Byte>, pos: nat, out: seq<Byte>, ticks: nat,
                   handed: seq<int>, closed: seq<int>)

  function Min(a: nat, b: nat): nat { if a < b then a else b }

  function Silence(n: nat): seq<Byte> { seq(n, _ => SILENT) }

  predicate Shaped(s: Sb) {
    && |s.dma.bufs| == 2 && |s.dma.bufs[0]| == CHUNK && |s.dma.bufs[1]| == CHUNK
    && |s.dma.done| == 2 && s.dma.cur < 2 && s.pos <= |s.file|
  }

  // ---- the service ------------------------------------------------------

  /** Its self-recursion descends: wait, then write or idle, then close or unknown, then init. */
  function Rank(reg: nat): nat {
    if reg == SB_WAIT then 3 else if reg == SB_WRITE || reg == SB_IDLE then 2 else if reg == SB_INIT then 0 else 1
  }

  /** The engine reset, silent buffers, a fresh ring, and go. */
  function Started(d: Dma): Dma { Dma(true, [Silence(CHUNK), Silence(CHUNK)], [false, false], 0, false, false) }

  /** The first complete descriptor in ring order, 2 if none. */
  function FirstDone(done: seq<bool>): (i: nat)
    requires |done| == 2
    ensures i <= 2 && (i < 2 ==> done[i]) && forall k :: 0 <= k < i ==> !done[k]
  {
    if done[0] then 0 else if done[1] then 1 else 2
  }

  /** How many bytes the next refill reads. */
  function ReadSize(s: Sb): nat requires Shaped(s) {
    Min(Min(CHUNK, s.playsize), |s.file| - s.pos)
  }

  /** Refill buffer i: file bytes, then silence to the end of the chunk. */
  function Refilled(s: Sb, i: nat): (s': Sb)
    requires Shaped(s) && i < 2
    ensures Shaped(s')
  {
    var n := ReadSize(s);
    s.(dma := s.dma.(bufs := s.dma.bufs[i := s.file[s.pos..s.pos + n] + Silence(CHUNK - n)],
                     done := s.dma.done[i := false], cmplt := false),
       playsize := s.playsize - n, pos := s.pos + n, reg := SB_WAIT)
  }

  /** The write step: refill the buffer just played, or make for the close state when no
      descriptor is complete or when nothing is left to read and the countdown is over. */
  function Written(s: Sb): (s': Sb)
    requires Shaped(s)
    ensures Shaped(s') && (s'.reg == SB_CLOSE || s'.reg == SB_WAIT)
  {
    var i := FirstDone(s.dma.done);
    if i == 2 then s.(reg := SB_CLOSE)
    else if ReadSize(s) == 0 && s.playcount == 0 then
      s.(dma := s.dma.(done := s.dma.done[i := false], cmplt := false), reg := SB_CLOSE)
    else Refilled(s, i)
  }

  /** One call of the service. `pending` says whether SIGINT or SIGBUS is pending,
      `dmaOk` whether the engine may be started. */
  function Service(s: Sb, pending: bool, dmaOk: bool): (s': Sb)
    requires Shaped(s)
    ensures Shaped(s')
    decreases Rank(s.reg)
  {
    if s.reg == SB_INIT then
      s.(fd := -1, playsize := 0, playcount := 0, reg := SB_IDLE)
    else if s.reg == SB_IDLE then
      if s.fd < 0 then s else
        var s1 := s.(playcount := (s.playcount + 1) % WORD, reg := SB_WAIT);
        if dmaOk then s1.(dma := Started(s.dma)) else Service(s1.(reg := SB_CLOSE), pending, dmaOk)
    else if s.reg == SB_WAIT then
      if !pending then s
      else if s.dma.busErr then s.(reg := SB_CLOSE)
      else if s.dma.cmplt then
        Service(s.(reg := SB_WRITE, playcount := (s.playcount - 1) % WORD), pending, dmaOk)
      else s
    else if s.reg == SB_WRITE then
      var w := Written(s);
      if w.reg == SB_CLOSE then Service(w, pending, dmaOk) else w
    else if s.reg == SB_CLOSE then
      Service(s.(reg := SB_INIT, closed := if s.fd >= 0 then s.closed + [s.fd] else s.closed,
                 dma := s.dma.(running := false)), pending, dmaOk)
    else
      Service(s.(reg := SB_INIT), pending, dmaOk)
  }

  // ---- the rest of the world --------------------------------------------

  /** Chunks needed for so many samples. */
  function Chunks(samples: nat): nat {
    samples / CHUNK + if samples % CHUNK > 0 then 1 else 0
  }

  /** The play command, once the header has been read: one packet more, for silence. */
  function Play(s: Sb, fd: nat, samples: nat, data: seq<Byte>): Sb {
    s.(fd := fd, playcount := Chunks(samples) + 1, playsize := samples,
       file := data, pos := 0, out := [], ticks := 0, handed := s.handed + [fd])
  }

  /** The engine finishes playing its current buffer; the handler flags the completion. */
  function Complete(s: Sb): Sb
    requires Shaped(s)
  {
    var d := s.dma;
    s.(out := s.out + d.bufs[d.cur], ticks := s.ticks + 1,
       dma := d.(done := d.done[d.cur := true], cur := 1 - d.cur, cmplt := true, busErr := false))
  }

  /** A bus error interrupt, with or without a completion. */
  function Fault(s: Sb, ioc: bool): Sb { s.(dma := s.dma.(cmplt := ioc, busErr := true)) }

  datatype Event =
    | Handover(fd: nat, samples: nat, data: seq<Byte>)   // the play command
    | Call(pending: bool, dmaOk: bool)                   // the kernel calls the service
    | Tick                                               // a buffer has been played
    | BusError(ioc: bool)

  predicate Enabled(s: Sb, e: Event) {
    match e
    case Handover(_, samples, _) => s.reg == SB_IDLE && s.fd < 0 && samples < WORD
    case Call(_, _) => true
    case Tick => s.dma.running
    case BusError(_) => s.dma.running
  }

  function Do(s: Sb, e: Event): (s': Sb)
    requires Shaped(s)
    ensures Shaped(s')
  {
    match e
    case Handover(fd, samples, data) => Play(s, fd, samples, data)
    case Call(pending, dmaOk) => Service(s, pending, dmaOk)
    case Tick => Complete(s)
    case BusError(ioc) => Fault(s, ioc)
  }

  // ---- every run: files are closed once, the countdown never underflows ---

  /** The service holds a file. */
  predicate Live(s: Sb) { s.reg != SB_INIT && s.fd >= 0 }

  /** Bytes still to be read. */
  function Left(s: Sb): nat requires Shaped(s) { Min(s.playsize, |s.file| - s.pos) }

  predicate Inv(s: Sb) {
    && Shaped(s) && (s.reg == SB_INIT || s.reg == SB_IDLE || s.reg == SB_WAIT || s.reg == SB_CLOSE)
    && s.handed == s.closed + (if Live(s) then [s.fd] else [])
    && (!Live(s) ==> !s.dma.running)
    && (s.reg == SB_WAIT || s.reg == SB_CLOSE ==> s.fd >= 0)
    && (s.reg == SB_IDLE && s.fd >= 0 ==> 1 <= s.playcount < WORD - 1 && Left(s) <= (s.playcount - 1) * CHUNK)
    && (s.reg == SB_WAIT ==> 1 <= s.playcount < WORD && (Left(s) == 0 || Left(s) <= (s.playcount - 2) * CHUNK))
  }

  /** Closing closes the file, stops the engine and forgets the descriptor. */
  lemma CloseCloses(s: Sb, pending: bool, dmaOk: bool)
    requires Shaped(s) && s.reg == SB_CLOSE && s.fd >= 0
    ensures Service(s, pending, dmaOk)
         == s.(reg := SB_IDLE, fd := -1, playsize := 0, playcount := 0,
               closed := s.closed + [s.fd], dma := s.dma.(running := false))
  {
  }

  /** Idle without a file, its file closed and the engine stopped. */
  predicate Ended(s: Sb, s': Sb) {
    && s'.reg == SB_IDLE && s'.fd == -1 && s'.playcount == 0 && s'.playsize == 0 && !s'.dma.running
    && s'.closed == s.closed + [s.fd] && s'.handed == s.handed && s'.out == s.out
  }

  /** A bus error in a playback ends it within two calls, whatever else is flagged. */
  lemma FaultEnds(s: Sb, ioc: bool, ok: bool, pending: bool, ok': bool)
    requires Shaped(s) && s.reg == SB_WAIT && s.fd >= 0
    ensures var s1 := Service(Fault(s, ioc), true, ok);
      s1.fd == s.fd && s1.closed == s.closed && Ended(s, Service(s1, pending, ok'))
  {
    CloseCloses(Fault(s, ioc).(reg := SB_CLOSE), pending, ok');
  }

  /** A start that the engine refuses ends the playback in the same call. */
  lemma RefusalEnds(s: Sb, pending: bool)
    requires Shaped(s) && s.reg == SB_IDLE && s.fd >= 0
    ensures Ended(s, Service(s, pending, false))
  {
    CloseCloses(s.(playcount := (s.playcount + 1) % WORD, reg := SB_CLOSE), pending, false);
  }

  /** So does a completion signal for which no descriptor is complete. */
  lemma LostCompletionEnds(s: Sb, ok: bool)
    requires Shaped(s) && s.reg == SB_WAIT && s.fd >= 0
    requires s.dma.cmplt && !s.dma.busErr && !s.dma.done[0] && !s.dma.done[1]
    ensures Ended(s, Service(s, true, ok))
  {
    var w := s.(reg := SB_WRITE, playcount := (s.playcount - 1) % WORD);
    assert Service(s, true, ok) == Service(w, true, ok);
    assert Service(w, true, ok) == Service(w.(reg := SB_CLOSE), true, ok);
    CloseCloses(w.(reg := SB_CLOSE), true, ok);
  }

  /** A call with nothing to do changes nothing: no file to play, or waiting with no signal
      pending or nothing flagged. */
  lemma QuietCall(s: Sb, pending: bool, ok: bool)
    requires Shaped(s)
    requires (s.reg == SB_IDLE && s.fd < 0)
          || (s.reg == SB_WAIT && (!pending || (!s.dma.busErr && !s.dma.cmplt)))
    ensures Service(s, pending, ok) == s
  {
  }

  lemma WriteKeeps(s: Sb, pending: bool, dmaOk: bool)
    requires Shaped(s) && s.reg == SB_WRITE && s.fd >= 0 && s.handed == s.closed + [s.fd]
    requires s.playcount < WORD - 1 && (Left(s) == 0 || Left(s) <= (s.playcount - 1) * CHUNK)
    ensures Inv(Service(s, pending, dmaOk))
    ensures var s' := Service(s, pending, dmaOk);
      s'.reg == SB_WAIT || (s'.reg == SB_IDLE && s'.fd == -1 && s'.closed == s.closed + [s.fd])
  {
    if Written(s).reg == SB_CLOSE {
      CloseCloses(Written(s), pending, dmaOk);
    }
  }

  lemma ServiceKeeps(s: Sb, pending: bool, dmaOk: bool)
    requires Inv(s)
    ensures Inv(Service(s, pending, dmaOk))
  {
    if s.reg == SB_IDLE {
      IdleKeeps(s, pending, dmaOk);
    } else if s.reg == SB_CLOSE {
      CloseCloses(s, pending, dmaOk);
    } else if s.reg == SB_WAIT {
      WaitKeeps(s, pending, dmaOk);
    }
  }

  lemma IdleKeeps(s: Sb, pending: bool, dmaOk: bool)
    requires Inv(s) && s.reg == SB_IDLE
    ensures Inv(Service(s, pending, dmaOk))
  {
    if s.fd >= 0 && !dmaOk {
      CloseCloses(s.(playcount := (s.playcount + 1) % WORD, reg := SB_CLOSE), pending, dmaOk);
    }
  }

  lemma WaitKeeps(s: Sb, pending: bool, dmaOk: bool)
    requires Inv(s) && s.reg == SB_WAIT
    ensures Inv(Service(s, pending, dmaOk))
  {
    if pending && !s.dma.busErr && s.dma.cmplt {
      WriteKeeps(s.(reg := SB_WRITE, playcount := (s.playcount - 1) % WORD), pending, dmaOk);
    }
  }

  lemma ChunksCover(samples: nat)
    requires samples < WORD
    ensures samples <= Chunks(samples) * CHUNK < samples + CHUNK && Chunks(samples) < WORD - 4
  {
  }

  lemma DoKeeps(s: Sb, e: Event)
    requires Inv(s) && Enabled(s, e)
    ensures Inv(Do(s, e))
  {
    match e
    case Handover(_, samples, _) => ChunksCover(samples);
    case Call(pending, dmaOk) => ServiceKeeps(s, pending, dmaOk);
    case Tick =>
    case BusError(_) =>
  }

  predicate Runnable(s: Sb, es: seq<Event>)
    requires Shaped(s)
    decreases |es|
  {
    es == [] || (Enabled(s, es[0]) && Runnable(Do(s, es[0]), es[1..]))
  }

  function Run(s: Sb, es: seq<Event>): (s': Sb)
    requires Shaped(s) && Runnable(s, es)
    ensures Shaped(s')
    decreases |es|
  {
    if es == [] then s else Run(Do(s, es[0]), es[1..])
  }

  predicate Booted(s: Sb) {
    Shaped(s) && s.reg == SB_INIT && !s.dma.running && s.handed == [] && s.closed == []
  }

  lemma {:induction false} RunKeeps(s: Sb, es: seq<Event>)
    requires Inv(s) && Runnable(s, es)
    ensures Inv(Run(s, es))
    decreases |es|
  {
    if es == [] {
    } else {
      DoKeeps(s, es[0]);
      RunKeeps(Do(s, es[0]), es[1..]);
    }
  }

  /** In every run from boot -- bus errors, refused starts, spurious signals and lost
      completions included -- each file handed over is closed exactly once or still held, a
      service without a file has its engine stopped, and the countdown is never taken below
      zero. */
  lemma FilesClosedOnce(s: Sb, es: seq<Event>)
    requires Booted(s) && Runnable(s, es)
    ensures var s' := Run(s, es);
      && s'.handed == s'.closed + (if Live(s') then [s'.fd] else [])
      && (!Live(s') ==> !s'.dma.running)
      && (s'.reg == SB_WAIT ==> s'.playcount >= 1)
  {
    RunKeeps(s, es);
  }

  // ---- what is heard ----------------------------------------------------

  /** Samples that exist in the file. */
  function Samples(samples: nat, data: seq<Byte>): nat { Min(samples, |data|) }

  /** Byte i of the expected output. */
  function HeardAt(samples: nat, data: seq<Byte>, i: nat): Byte {
    if 2 * CHUNK <= i < 2 * CHUNK + Samples(samples, data) then data[i - 2 * CHUNK] else SILENT
  }

  /** The expected output of a playback. */
  function Heard(samples: nat, data: seq<Byte>): seq<Byte> {
    seq<Byte>((Chunks(samples) + 2) * CHUNK, (i: nat) => HeardAt(samples, data, i))
  }

  /** It is two silent chunks, then all samples in order once, then silence to a chunk boundary. */
  lemma HeardIs(samples: nat, data: seq<Byte>)
    ensures Chunks(samples) * CHUNK >= Samples(samples, data)
    ensures Heard(samples, data)
         == Silence(2 * CHUNK) + data[..Samples(samples, data)]
            + Silence(Chunks(samples) * CHUNK - Samples(samples, data))
  {
  }

  /** The k-th chunk of the expected output, silence beyond the end. */
  function ChunkAt(samples: nat, data: seq<Byte>, k: nat): seq<Byte> {
    seq<Byte>(CHUNK, (i: nat) => HeardAt(samples, data, k * CHUNK + i))
  }

  lemma HeardGrows(samples: nat, data: seq<Byte>, k: nat)
    requires k < Chunks(samples) + 2
    ensures Heard(samples, data)[..k * CHUNK] + ChunkAt(samples, data, k) == Heard(samples, data)[..(k + 1) * CHUNK]
  {
  }

  /** Where reading stands after c refills. */
  function Progress(samples: nat, data: seq<Byte>, c: nat): nat { Min(c * CHUNK, Samples(samples, data)) }

  /** What the refill after c refills reads. */
  function RefillSize(samples: nat, data: seq<Byte>, c: nat): nat {
    Min(CHUNK, Samples(samples, data) - Progress(samples, data, c))
  }

  lemma RefillIsChunk(samples: nat, data: seq<Byte>, c: nat, n: nat)
    requires n == RefillSize(samples, data, c)
    ensures var pos := Progress(samples, data, c);
      && pos + n == Progress(samples, data, c + 1)
      && data[pos..pos + n] + Silence(CHUNK - n) == ChunkAt(samples, data, c + 2)
  {
    var pos := Progress(samples, data, c);
    var fill := data[pos..pos + n] + Silence(CHUNK - n);
    forall i | 0 <= i < CHUNK ensures fill[i] == ChunkAt(samples, data, c + 2)[i] {
      assert ChunkAt(samples, data, c + 2)[i] == HeardAt(samples, data, (c + 2) * CHUNK + i);
      if i < n { assert pos == c * CHUNK; }
    }
  }

  /** Refills done so far in a playback. */
  function Handled(s: Sb, samples: nat): int { Chunks(samples) + 2 - s.playcount }

  /** The engine is playing chunk k; the other buffer has just been played, if that
      completion is unhandled, or else holds chunk k + 1. */
  predicate Sounding(d: Dma, samples: nat, data: seq<Byte>, k: nat)
    requires |d.bufs| == 2 && |d.done| == 2
  {
    && d.running && !d.busErr && d.cur == k % 2 && d.bufs[k % 2] == ChunkAt(samples, data, k)
    && (if d.cmplt then d.done[1 - k % 2] && !d.done[k % 2]
        else !d.done[0] && !d.done[1] && d.bufs[1 - k % 2] == ChunkAt(samples, data, k + 1))
  }

  lemma RefillSounds(d: Dma, samples: nat, data: seq<Byte>, k: nat, i: nat)
    requires |d.bufs| == 2 && |d.done| == 2 && Sounding(d, samples, data, k) && d.cmplt
    requires i == FirstDone(d.done)
    ensures i == 1 - k % 2
    ensures Sounding(d.(bufs := d.bufs[i := ChunkAt(samples, data, k + 1)], done := d.done[i := false], cmplt := false),
                     samples, data, k)
  {
  }

  /** A playback of `data` under way: c completions handled and, if `cmplt`, one more not yet. */
  predicate Playing(s: Sb, fd: nat, samples: nat, data: seq<Byte>) {
    && Shaped(s) && s.reg == SB_WAIT && s.fd == fd
    && 1 <= s.playcount <= Chunks(samples) + 2 && s.file == data
    && var c := Handled(s, samples);
       var k := if s.dma.cmplt then c + 1 else c;
       && s.ticks == k && s.out == Heard(samples, data)[..k * CHUNK]
       && s.pos == Progress(samples, data, c) && s.playsize == samples - s.pos
       && Sounding(s.dma, samples, data, k)
  }

  /** A playback handed over and not started. */
  predicate Waiting(s: Sb, fd: nat, samples: nat, data: seq<Byte>) {
    && Shaped(s) && s.reg == SB_IDLE && s.fd == fd && s.playcount == Chunks(samples) + 1
    && s.playsize == samples && s.file == data && s.pos == 0 && s.out == [] && s.ticks == 0 && !s.dma.running
  }

  /** A playback that is over: everything was heard, in exactly N + 2 completions. */
  predicate Over(s: Sb, samples: nat, data: seq<Byte>) {
    && Shaped(s) && s.reg == SB_IDLE && s.fd == -1 && !s.dma.running
    && s.ticks == Chunks(samples) + 2 && s.out == Heard(samples, data)
  }

  predicate Playback(s: Sb, fd: nat, samples: nat, data: seq<Byte>) {
    Waiting(s, fd, samples, data) || Playing(s, fd, samples, data) || Over(s, samples, data)
  }

  lemma LeadIn(samples: nat, data: seq<Byte>, k: nat)
    requires k < 2
    ensures ChunkAt(samples, data, k) == Silence(CHUNK)
  {
    var chunk := ChunkAt(samples, data, k);
    forall i | 0 <= i < CHUNK ensures chunk[i] == Silence(CHUNK)[i] {
      assert chunk[i] == HeardAt(samples, data, k * CHUNK + i);
    }
  }

  lemma StartPlays(s: Sb, fd: nat, samples: nat, data: seq<Byte>, pending: bool)
    requires Waiting(s, fd, samples, data) && samples < WORD
    ensures Playing(Service(s, pending, true), fd, samples, data)
  {
    ChunksCover(samples);
    var s' := Service(s, pending, true);
    LeadIn(samples, data, 0);
    LeadIn(samples, data, 1);
    assert Heard(samples, data)[..0 * CHUNK] == [];
  }

  lemma CompletePlays(s: Sb, fd: nat, samples: nat, data: seq<Byte>)
    requires Playing(s, fd, samples, data) && !s.dma.cmplt
    ensures Playing(Complete(s), fd, samples, data)
  {
    var k := Handled(s, samples);
    HeardGrows(samples, data, k);
    assert (k + 1) % 2 == 1 - k % 2;
  }

  /** The state in which a handled completion enters the write step. */
  function Entering(s: Sb): Sb { s.(reg := SB_WRITE, playcount := (s.playcount - 1) % WORD) }

  /** Handling a completion, not the last, refills the buffer just played with the chunk
      after next. */
  lemma RefillPlays(s: Sb, fd: nat, samples: nat, data: seq<Byte>, i: nat)
    requires Playing(s, fd, samples, data) && s.dma.cmplt && samples < WORD && s.playcount > 1
    requires i == FirstDone(s.dma.done)
    ensures i < 2 && Playing(Refilled(Entering(s), i), fd, samples, data)
    ensures Refilled(Entering(s), i).ticks == s.ticks
  {
    hide Sounding, Heard, ChunkAt, Progress, RefillSize, ReadSize, Silence, FirstDone;
    RefillReads(s, fd, samples, data);
    var c := Handled(s, samples);
    RefillSounds(s.dma, samples, data, c + 1, i);
    RefillIsChunk(samples, data, c, ReadSize(s));
  }

  lemma RefillReads(s: Sb, fd: nat, samples: nat, data: seq<Byte>)
    requires Playing(s, fd, samples, data) && samples < WORD
    ensures Entering(s).playcount == s.playcount - 1 && Handled(s, samples) >= 0
    ensures ReadSize(Entering(s)) == ReadSize(s) == RefillSize(samples, data, Handled(s, samples))
  {
    ChunksCover(samples);
  }

  lemma LastCloses(s: Sb, fd: nat, samples: nat, data: seq<Byte>, dmaOk: bool)
    requires Playing(s, fd, samples, data) && s.dma.cmplt && samples < WORD && s.playcount == 1
    ensures var s' := Service(Entering(s), true, dmaOk);
      Over(s', samples, data) && s'.closed == s.closed + [fd]
  {
    ChunksCover(samples);
    var w, i := Entering(s), FirstDone(s.dma.done);
    assert ReadSize(w) == 0;
    CloseCloses(Written(w), true, dmaOk);
    assert Heard(samples, data)[..(Chunks(samples) + 2) * CHUNK] == Heard(samples, data);
  }

  lemma HandlePlays(s: Sb, fd: nat, samples: nat, data: seq<Byte>, dmaOk: bool)
    requires Playing(s, fd, samples, data) && s.dma.cmplt && samples < WORD
    ensures var s' := Service(s, true, dmaOk);
      if s.ticks < Chunks(samples) + 2 then Playing(s', fd, samples, data) && s'.ticks == s.ticks
      else Over(s', samples, data) && s'.closed == s.closed + [fd]
  {
    assert Service(s, true, dmaOk) == Service(Entering(s), true, dmaOk);
    ChunksCover(samples);
    if s.playcount > 1 {
      RefillPlays(s, fd, samples, data, FirstDone(s.dma.done));
    } else {
      LastCloses(s, fd, samples, data, dmaOk);
    }
  }

  /** Events of a healthy playback: each completion is handled before the next. */
  predicate Healthy(s: Sb, e: Event) {
    match e
    case Tick => s.dma.running && !s.dma.cmplt
    case Call(_, dmaOk) => dmaOk
    case _ => false
  }

  lemma HealthyStep(s: Sb, e: Event, fd: nat, samples: nat, data: seq<Byte>)
    requires Playback(s, fd, samples, data) && Healthy(s, e) && samples < WORD
    ensures Playback(Do(s, e), fd, samples, data)
  {
    match e
    case Tick => CompletePlays(s, fd, samples, data);
    case Call(pending, dmaOk) =>
      if Waiting(s, fd, samples, data) { StartPlays(s, fd, samples, data, pending); }
      else if Playing(s, fd, samples, data) && pending && s.dma.cmplt { HandlePlays(s, fd, samples, data, dmaOk); }
  }

  predicate AllHealthy(s: Sb, es: seq<Event>)
    requires Shaped(s)
    decreases |es|
  {
    es == [] || (Healthy(s, es[0]) && AllHealthy(Do(s, es[0]), es[1..]))
  }

  function Drive(s: Sb, es: seq<Event>): (s': Sb)
    requires Shaped(s)
    ensures Shaped(s')
    decreases |es|
  {
    if es == [] then s else Drive(Do(s, es[0]), es[1..])
  }

  lemma {:induction false} HealthyRun(s: Sb, es: seq<Event>, fd: nat, samples: nat, data: seq<Byte>)
    requires Playback(s, fd, samples, data) && samples < WORD && AllHealthy(s, es)
    ensures Playback(Drive(s, es), fd, samples, data)
    decreases |es|
  {
    if es == [] {
    } else {
      HealthyStep(s, es[0], fd, samples, data);
      HealthyRun(Do(s, es[0]), es[1..], fd, samples, data);
    }
  }

  /** The play command on an idle service, then any healthy run: at each moment the output is
      the expected stream so far; the file is closed at the (N + 2)th completion, neither
      earlier nor later, when all of the stream has been heard. */
  lemma PlaybackIsHeard(s: Sb, es: seq<Event>, fd: nat, samples: nat, data: seq<Byte>)
    requires Inv(s) && Enabled(s, Handover(fd, samples, data)) && AllHealthy(Play(s, fd, samples, data), es)
    ensures var s' := Drive(Play(s, fd, samples, data), es);
      && s'.ticks <= Chunks(samples) + 2
      && s'.out == Heard(samples, data)[..s'.ticks * CHUNK]
      && (s'.fd == -1 ==> s'.ticks == Chunks(samples) + 2 && !s'.dma.running && s'.out == Heard(samples, data))
      && (s'.ticks < Chunks(samples) + 2 ==> s'.fd == fd)
  {
    HealthyRun(Play(s, fd, samples, data), es, fd, samples, data);
    assert Heard(samples, data)[..(Chunks(samples) + 2) * CHUNK] == Heard(samples, data);
  }

  /** r completions, each handled at once. */
  function Rounds(r: nat): seq<Event> {
    if r == 0 then [] else [Tick] + ([Call(true, true)] + Rounds(r - 1))
  }

  lemma DriveStep(s: Sb, e: Event, rest: seq<Event>)
    requires Shaped(s)
    ensures Drive(s, [e] + rest) == Drive(Do(s, e), rest)
  {
    assert ([e] + rest)[1..] == rest;
  }

  /** Handled promptly, a playback is still going after every round but the last, and over
      after that one. */
  lemma {:induction false} RoundsPlay(s: Sb, fd: nat, samples: nat, data: seq<Byte>, r: nat)
    requires Playing(s, fd, samples, data) && !s.dma.cmplt && samples < WORD && r <= s.playcount
    ensures var s' := Drive(s, Rounds(r));
      if r < s.playcount then Playing(s', fd, samples, data) && s'.fd == fd else Over(s', samples, data)
    decreases r
  {
    hide Playing, Over, Drive, Service, Complete;
    if r == 0 {
      PlayingHolds(s, fd, samples, data);
      DriveNone(s);
    } else {
      var s2 := Round(s, fd, samples, data, r);
      if s.playcount == 1 {
        assert Rounds(r - 1) == [];
        DriveNone(s2);
      } else {
        RoundsPlay(s2, fd, samples, data, r - 1);
      }
    }
  }

  lemma DriveNone(s: Sb)
    requires Shaped(s)
    ensures Drive(s, []) == s
  {
  }

  lemma PlayingHolds(s: Sb, fd: nat, samples: nat, data: seq<Byte>)
    requires Playing(s, fd, samples, data)
    ensures Shaped(s) && s.fd == fd && s.reg == SB_WAIT && s.playcount >= 1
  {
  }

  /** One completion, handled. */
  lemma Round(s: Sb, fd: nat, samples: nat, data: seq<Byte>, r: nat) returns (s2: Sb)
    requires Playing(s, fd, samples, data) && !s.dma.cmplt && samples < WORD && r > 0
    ensures Shaped(s) && Shaped(s2) && Drive(s, Rounds(r)) == Drive(s2, Rounds(r - 1))
    ensures if s.playcount == 1 then Over(s2, samples, data)
            else Playing(s2, fd, samples, data) && !s2.dma.cmplt && s2.playcount == s.playcount - 1
  {
    var s1 := Complete(s);
    CompletePlays(s, fd, samples, data);
    assert s1.dma.cmplt && s1.playcount == s.playcount && s1.ticks == Chunks(samples) + 3 - s.playcount;
    s2 := Service(s1, true, true);
    DriveStep(s, Tick, [Call(true, true)] + Rounds(r - 1));
    DriveStep(s1, Call(true, true), Rounds(r - 1));
    hide Playing, Over, Drive, Service, Complete;
    HandlePlays(s1, fd, samples, data, true);
    if s.playcount > 1 { HandledOnce(s1, fd, samples, data); }
  }

  lemma HandledOnce(s: Sb, fd: nat, samples: nat, data: seq<Byte>)
    requires Playing(s, fd, samples, data) && s.dma.cmplt && samples < WORD && s.playcount > 1
    ensures var s' := Service(s, true, true); s'.playcount == s.playcount - 1 && !s'.dma.cmplt
  {
    ChunksCover(samples);
    assert Service(s, true, true) == Service(Entering(s), true, true);
    RefillPlays(s, fd, samples, data, FirstDone(s.dma.done));
  }

  lemma StartCount(s: Sb, pending: bool)
    requires Shaped(s) && s.reg == SB_IDLE && s.fd >= 0 && s.playcount < WORD - 1
    ensures var s' := Service(s, pending, true); s'.playcount == s.playcount + 1 && !s'.dma.cmplt
  {
  }

  /** From the play command on: the file is held through N + 1 completions and closed, all
      of it heard, at the (N + 2)th. */
  lemma ClosedAtLastCompletion(s: Sb, fd: nat, samples: nat, data: seq<Byte>, r: nat)
    requires Inv(s) && Enabled(s, Handover(fd, samples, data)) && r <= Chunks(samples) + 2
    ensures var s' := Drive(Play(s, fd, samples, data), [Call(true, true)] + Rounds(r));
      if r < Chunks(samples) + 2 then s'.fd == fd && s'.reg == SB_WAIT
      else s'.fd == -1 && !s'.dma.running && s'.out == Heard(samples, data)
  {
    var s1 := Play(s, fd, samples, data);
    StartPlays(s1, fd, samples, data, true);
    DriveStep(s1, Call(true, true), Rounds(r));
    StartCount(s1, true);
    RoundsPlay(Service(s1, true, true), fd, samples, data, r);
  }
}
