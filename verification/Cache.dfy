/** Cache maintenance over an address range: the second-level loops count an offset down
    by 64-byte lines, the first-level loop counts an address up by 16-byte lines, all in
    32-bit registers. Lines are numbered: line n of size b starts at address b * n. */
module Cache {
  import opened Common
  import opened MemoryMap
  import opened SgRing

  const L2_LINE: nat := 64
  const L1_LINE: nat := 16
  const L2_LINES: nat := 0x400_0000      // in the address space
  const L1_LINES: nat := 0x1000_0000

  /** The bytes from a, so many of them, share one with [addr, addr + len). */
  predicate Meets(a: nat, size: nat, addr: nat, len: nat) {
    a < addr + len && addr < a + size
  }

  /** Addresses of the lines numbered first to last. */
  function Lines(first: nat, last: nat, line: nat): seq<nat> {
    seq(if first <= last then last - first + 1 else 0, (k: nat) => line * (first + k))
  }

  /** A line meets a range exactly when it lies between those of the first and last byte. */
  lemma Between64(addr: nat, len: nat, n: nat)
    requires len > 0
    ensures Meets(64 * n, 64, addr, len) <==> addr / 64 <= n <= (addr + len - 1) / 64
  {
    var q, r := addr / 64, addr % 64;
    assert addr == 64 * q + r;
    var p, t := (addr + len - 1) / 64, (addr + len - 1) % 64;
    assert addr + len - 1 == 64 * p + t;
  }

  lemma Between16(addr: nat, len: nat, n: nat)
    requires len > 0
    ensures Meets(16 * n, 16, addr, len) <==> addr / 16 <= n <= (addr + len - 1) / 16
  {
    var q, r := addr / 16, addr % 16;
    assert addr == 16 * q + r;
    var p, t := (addr + len - 1) / 16, (addr + len - 1) % 16;
    assert addr + len - 1 == 16 * p + t;
  }

  lemma InLines(first: nat, last: nat, line: nat, n: nat)
    requires line == L1_LINE || line == L2_LINE
    ensures line * n in Lines(first, last, line) <==> first <= n <= last
  {
    var lines := Lines(first, last, line);
    if first <= n <= last { assert lines[n - first] == line * n; }
    if line * n in lines {
      var k :| 0 <= k < |lines| && lines[k] == line * n;
      Cancel(line, n, first + k);
    }
  }

  lemma Cancel(line: nat, a: nat, b: nat)
    requires (line == L1_LINE || line == L2_LINE) && line * a == line * b
    ensures a == b
  {
  }

  /** The lines from that of the first byte to that of the last are exactly the lines that
      meet the range. */
  lemma LinesExactly(addr: nat, len: nat, line: nat, n: nat)
    requires (line == L1_LINE || line == L2_LINE) && len > 0
    ensures line * n in Lines(addr / line, (addr + len - 1) / line, line) <==> Meets(line * n, line, addr, len)
  {
    InLines(addr / line, (addr + len - 1) / line, line, n);
    if line == L1_LINE { Between16(addr, len, n); } else { Between64(addr, len, n); }
  }

  // ---- the second level -------------------------------------------------

  /** The offset to the last line, in 32 bits. It is the distance between the lines, unless
      the range runs all the way round to the line it began in. */
  lemma Offset(addr: nat, len: nat)
    requires addr < WORD && 0 < len < WORD
    ensures var first, last := addr / 64, (addr + len - 1) / 64;
      && 0 <= last - first <= L2_LINES
      && (64 * (((addr + len - 1) % WORD) / 64) - 64 * first) % WORD
         == if last - first < L2_LINES then 64 * (last - first) else 0
  {
    var e := addr + len - 1;
    Monotone64(addr, e);
    if e >= WORD { RoundTheTop(e); }
    LineDifference(addr / 64, e / 64, (e % WORD) / 64);
  }

  lemma LineDifference(first: nat, last: nat, low: nat)
    requires first <= last <= first + L2_LINES && (low == last || low == last - L2_LINES)
    ensures (64 * low - 64 * first) % WORD == if last - first < L2_LINES then 64 * (last - first) else 0
  {
  }

  lemma Monotone64(a: nat, b: nat)
    requires a <= b < a + WORD
    ensures 0 <= b / 64 - a / 64 <= L2_LINES
  {
  }

  lemma RoundTheTop(e: nat)
    requires WORD <= e < 2 * WORD
    ensures e % WORD == e - WORD && (e - WORD) / 64 == e / 64 - L2_LINES
  {
  }

  /** Lines between those of the first and last byte; none if the range runs round to the line
      it began in. */
  function Span(addr: nat, len: nat): nat
    requires len > 0
  {
    var d := (addr + len - 1) / 64 - addr / 64;
    if 0 <= d < L2_LINES then d else 0
  }

  /** Line n, modulo the address space. */
  function Line64(n: nat): nat { (64 * n) % WORD }

  function LinesDown(first: nat, span: nat): seq<nat> {
    seq(span + 1, k requires 0 <= k <= span => Line64(first + (span - k)))
  }

  /** Invalidate or flush the second-level lines of a range, wherever it lies: all lines from
      that of the last byte down to that of the first, modulo the address space. A range that
      runs round to the line it began in gets that line only. */
  method L2Range(addr: nat, len: nat) returns (touched: seq<nat>)
    requires addr < WORD && len < WORD
    ensures touched == if len == 0 then [] else LinesDown(addr / 64, Span(addr, len))
  {
    touched := [];
    if len == 0 {
      return;
    }
    Offset(addr, len);
    var r6: int := 64 * (((addr + len - 1) % WORD) / 64);
    var r5 := 64 * (addr / 64);
    r6 := (r6 - r5) % WORD;
    touched := CountDown(r5, r6, addr / 64, Span(addr, len));
  }

  /** The loop: touch, test, and step in the delay slot. */
  method CountDown(r5: nat, offset: nat, ghost first: nat, ghost span: nat) returns (touched: seq<nat>)
    requires r5 == 64 * first && offset == 64 * span
    ensures touched == LinesDown(first, span)
  {
    touched := [];
    var r6: int := offset;
    var going := true;
    while going
      invariant r6 == 64 * (span - |touched|)
      invariant if going then |touched| <= span else |touched| == span + 1
      invariant touched == LinesDown(first, span)[..|touched|]
      decreases r6 + 64
    {
      ghost var k := |touched|;
      assert LinesDown(first, span)[k] == Line64(first + (span - k)) && r5 + r6 == 64 * (first + (span - k));
      touched := touched + [(r5 + r6) % WORD];
      going := r6 != 0;
      r6 := r6 - 64;
    }
  }

  /** For a range that does not wrap these are exactly the lines that meet it. */
  lemma L2Covers(addr: nat, len: nat, n: nat)
    requires len > 0 && addr + len <= WORD
    ensures 64 * n in LinesDown(addr / 64, Span(addr, len)) <==> Meets(64 * n, 64, addr, len)
  {
    var first, span := addr / 64, Span(addr, len);
    var lines := LinesDown(first, span);
    Between64(addr, len, n);
    assert span == (addr + len - 1) / 64 - first;
    forall k | 0 <= k <= span ensures lines[k] == 64 * (first + (span - k)) { InWord(first + (span - k)); }
    if first <= n <= first + span { assert lines[first + span - n] == 64 * n; }
  }

  lemma InWord(n: nat)
    requires n < L2_LINES
    ensures Line64(n) == 64 * n
  {
  }

  // ---- the first level --------------------------------------------------

  /** Number of the line of the last byte, as the 32-bit registers have it. */
  function LastLine(addr: nat, len: nat): nat
    requires len > 0
  {
    ((addr + len - 1) % WORD) / 16
  }

  /** Invalidate the first-level lines of a range, from the line of the first byte up to that
      of the last; none if the range wraps and ends on a lower line. The last line of the
      address space must not be the end: see `L1EndsExactly`. */
  method L1Range(addr: nat, len: nat) returns (touched: seq<nat>)
    requires addr < WORD && len < WORD && (len > 0 ==> LastLine(addr, len) != L1_LINES - 1)
    ensures touched == if len == 0 then [] else Lines(addr / 16, LastLine(addr, len), 16)
  {
    touched := [];
    if len == 0 {
      return;
    }
    ghost var first, last := addr / 16, LastLine(addr, len);
    assert last < L1_LINES - 1;
    var r6 := 16 * (((addr + len - 1) % WORD) / 16);
    var r5 := 16 * (addr / 16);
    while r5 <= r6
      invariant r5 == 16 * (first + |touched|) && (touched == [] || first + |touched| <= last + 1)
      invariant forall k :: 0 <= k < |touched| ==> touched[k] == 16 * (first + k)
      decreases r6 - r5
    {
      touched := touched + [r5];
      r5 := (r5 + 16) % WORD;
    }
  }

  /** For a range that does not wrap the line numbers are those of its first and last byte. */
  lemma L1Covers(addr: nat, len: nat, n: nat)
    requires len > 0 && addr + len <= WORD
    ensures 16 * n in Lines(addr / 16, LastLine(addr, len), 16) <==> Meets(16 * n, 16, addr, len)
  {
    LinesExactly(addr, len, 16, n);
  }

  /** The address register after n rounds. */
  function L1After(r5: nat, n: nat): nat {
    if n == 0 then r5 else (L1After(r5, n - 1) + 16) % WORD
  }

  lemma {:induction false} StaysAligned(q: nat, n: nat) returns (p: nat)
    requires q < L1_LINES
    ensures L1After(16 * q, n) == 16 * p && p < L1_LINES
    ensures q + n < L1_LINES ==> p == q + n
    decreases n
  {
    if n == 0 {
      p := q;
    } else {
      var p0 := StaysAligned(q, n - 1);
      p := if p0 + 1 < L1_LINES then p0 + 1 else 0;
    }
  }

  /** The loop's test `r5 <= r6` fails sooner or later exactly when the range does not end in
      the top line; if it does, the address register wraps to zero and the loop never ends. */
  lemma L1EndsExactly(addr: nat, len: nat)
    requires addr < WORD && 0 < len < WORD
    ensures (exists n: nat :: L1After(16 * (addr / 16), n) > 16 * LastLine(addr, len))
            <==> LastLine(addr, len) != L1_LINES - 1
  {
    var q, last := addr / 16, LastLine(addr, len);
    if last != L1_LINES - 1 {
      var n: nat := if q <= last then last + 1 - q else 0;
      var p := StaysAligned(q, n);
      assert L1After(16 * q, n) > 16 * last;
    } else {
      forall n: nat ensures L1After(16 * q, n) <= 16 * last { var p := StaysAligned(q, n); }
    }
  }

  // ---- maintenance does not reach the neighbours --------------------------

  /** No line, of either size, meets two descriptors of a ring whose base is a multiple of 64. */
  lemma DescriptorsApart(h: nat, i: nat, j: nat, n: nat)
    requires i != j
    ensures Meets(64 * n, 64, DescAddr(64 * h, i), DESC_SIZE) ==> !Meets(64 * n, 64, DescAddr(64 * h, j), DESC_SIZE)
    ensures Meets(16 * n, 16, DescAddr(64 * h, i), DESC_SIZE) ==> !Meets(16 * n, 16, DescAddr(64 * h, j), DESC_SIZE)
  {
    Within64(n, h + i, 1, 64);
    Within64(n, h + j, 1, 64);
    Within16(n, h + i, 1, 64);
    Within16(n, h + j, 1, 64);
  }

  /** A 64-byte line that meets part of an area of whole lines is one of the area's. */
  lemma Within64(n: nat, base: nat, lines: nat, len: nat)
    requires len <= 64 * lines
    ensures Meets(64 * n, 64, 64 * base, len) ==> base <= n < base + lines
  {
  }

  lemma Within16(n: nat, base: nat, lines: nat, len: nat)
    requires len <= 64 * lines
    ensures Meets(16 * n, 16, 64 * base, len) ==> 4 * base <= n < 4 * base + 4 * lines
  {
  }

  /** Maintaining any part of one frame slot touches no line of another. */
  lemma SlotsApart(h: nat, i: nat, j: nat, n: nat, len: nat)
    requires i != j && len <= MTU
    ensures Meets(64 * n, 64, BufferAddr(64 * h, MTU, i), len) ==> !Meets(64 * n, 64, BufferAddr(64 * h, MTU, j), MTU)
    ensures Meets(16 * n, 16, BufferAddr(64 * h, MTU, i), len) ==> !Meets(16 * n, 16, BufferAddr(64 * h, MTU, j), MTU)
  {
    SlotBase(h, i);
    SlotBase(h, j);
    Within64(n, h + 24 * i, 24, len);
    Within64(n, h + 24 * j, 24, MTU);
    Within16(n, h + 24 * i, 24, len);
    Within16(n, h + 24 * j, 24, MTU);
  }

  lemma SlotBase(h: nat, i: nat)
    ensures BufferAddr(64 * h, MTU, i) == 64 * (h + 24 * i)
  {
  }
}
