/** The millisecond clock: a free-running 32-bit counter at 100 MHz, an overflow count kept
    by its interrupt handler, and a reader that retries until it has a consistent pair.

    Environment: the handler runs at the wrap, so at tick t the overflow count is t / 2^32. */
module Timer {
  import opened Common

  const MS_TICKS: nat := 100000
  const MAX_MS: nat := WORD / MS_TICKS

  /** What a read of the overflow count and of the counter see at tick t. */
  function Overflows(t: nat): nat { (t / WORD) % WORD }
  function Counter(t: nat): nat { t % WORD }

  /** The result before it is cut to 32 bits. */
  function RawMillis(t: nat): nat { MAX_MS * (t / WORD) + (t % WORD) / MS_TICKS }

  /** The n-th read of a call happens at tick at(n); six consecutive reads take less
      than one period of the counter. */
  ghost predicate Schedule(at: nat -> nat) {
    && (forall i: nat, j: nat :: i <= j ==> at(i) <= at(j))
    && (forall i: nat :: at(i + 5) < at(i) + WORD)
  }

  /** Equal overflow counts around a counter read mean no wrap in between. */
  lemma ConsistentSnapshot(a: nat, b: nat, c: nat)
    requires a <= b <= c < a + WORD && Overflows(a) == Overflows(c)
    ensures a / WORD == b / WORD == c / WORD
  {
    var q := a / WORD;
    assert q <= b / WORD <= c / WORD <= q + 1;
    assert (q + 1) % WORD != q % WORD;
  }

  lemma WrapProduct(q: nat, r: nat)
    ensures (MAX_MS * (q % WORD) + r) % WORD == (MAX_MS * q + r) % WORD
  {
    assert q == WORD * (q / WORD) + q % WORD;
    assert MAX_MS * q + r == (MAX_MS * (q % WORD) + r) + WORD * (MAX_MS * (q / WORD));
    ModAdd(MAX_MS * (q % WORD) + r, MAX_MS * (q / WORD));
  }

  lemma {:induction false} ModAdd(x: nat, k: nat)
    ensures (x + WORD * k) % WORD == x % WORD
    decreases k
  {
    if k == 0 {
    } else {
      ModAdd(x, k - 1);
      assert x + WORD * k == (x + WORD * (k - 1)) + WORD;
    }
  }

  lemma SnapshotMillis(a: nat, b: nat, c: nat)
    requires a <= b <= c < a + WORD && Overflows(a) == Overflows(c)
    ensures (MAX_MS * Overflows(a) + Counter(b) / MS_TICKS) % WORD == RawMillis(b) % WORD
  {
    ConsistentSnapshot(a, b, c);
    WrapProduct(b / WORD, Counter(b) / MS_TICKS);
  }

  /** `_xtimer_millis`: at most one retry, and the result is the millisecond value of the
      instant of its last counter read. */
  method Millis(at: nat -> nat) returns (ms: nat, count: nat)
    requires Schedule(at)
    ensures count == 3 || count == 6
    ensures ms == RawMillis(at(count - 2)) % WORD
  {
    hide Overflows, Counter, RawMillis;
    var ovr, ticks := Overflows(at(0)), Counter(at(1));
    var again := Overflows(at(2));
    count := 3;
    while ovr != again
      invariant count == 3 || count == 6
      invariant ovr == Overflows(at(count - 3)) && ticks == Counter(at(count - 2)) && again == Overflows(at(count - 1))
      invariant count == 6 ==> ovr == again
      decreases 6 - count
    {
      Retry(at(0), at(2), at(3), at(5));
      ovr, ticks := Overflows(at(count)), Counter(at(count + 1));
      again := Overflows(at(count + 2));
      count := count + 3;
    }
    assert at(count - 1) < at(count - 3) + WORD by {
      var i := count - 3;
      assert at(i + 2) <= at(i + 5) < at(i) + WORD;
    }
    SnapshotMillis(at(count - 3), at(count - 2), at(count - 1));
    ms := (MAX_MS * ovr + ticks / MS_TICKS) % WORD;
  }

  /** Two wraps do not fit into two tries. */
  lemma Retry(a: nat, b: nat, c: nat, d: nat)
    requires a <= b <= c <= d < a + WORD && Overflows(a) != Overflows(b)
    ensures Overflows(c) == Overflows(d)
  {
    assert b / WORD == a / WORD + 1;
    assert c / WORD == d / WORD;
  }

  /** Before the cut to 32 bits the clock never steps back, wraps included. */
  lemma Nondecreasing(t: nat, u: nat)
    requires t <= u
    ensures RawMillis(t) <= RawMillis(u)
  {
    var p, q := t / WORD, u / WORD;
    assert p <= q;
    if p < q {
      assert MAX_MS * q >= MAX_MS * (p + 1);
      assert (t % WORD) / MS_TICKS <= MAX_MS;
    } else {
      assert t % WORD <= u % WORD;
    }
  }

  /** It never runs ahead of real time, and lags by what 2^32 ticks exceed 42949 ms by. */
  lemma LagExactly(t: nat)
    ensures RawMillis(t) <= t / MS_TICKS
    ensures t / MS_TICKS - RawMillis(t) == (67296 * (t / WORD) + (t % WORD) % MS_TICKS) / MS_TICKS
  {
    var q, r := t / WORD, t % WORD;
    assert t == WORD * q + r;
    assert WORD == MAX_MS * MS_TICKS + 67296;
    var m, rest := r / MS_TICKS, r % MS_TICKS;
    assert t == (MAX_MS * q + m) * MS_TICKS + (67296 * q + rest);
    DivShift(MAX_MS * q + m, 67296 * q + rest);
  }

  lemma DivShift(k: nat, x: nat)
    ensures (k * MS_TICKS + x) / MS_TICKS == k + x / MS_TICKS
  {
  }
}
