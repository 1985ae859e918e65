/** The boot page tables: two counted loops that store 2 MiB entries, and what the
    processor's walk makes of them. */
module PageTables {
  import opened Common

  const PAGE: nat := 0x1000
  const LARGE: nat := 0x20_0000
  const HUGE: nat := 0x4000_0000
  const MMIO: nat := 0xFEC0_0000

  const TABLE_FLAGS: nat := 0x03         // present, writable
  const LARGE_FLAGS: nat := 0x83         // and page size
  const MMIO_FLAGS: nat := 0x93          // and cache disable

  // ---- the walk ---------------------------------------------------------

  /** Paging structures by physical address. */
  type Memory = map<nat, seq<nat>>

  predicate Present(e: nat) { e % 2 == 1 }
  predicate Writable(e: nat) { (e / 2) % 2 == 1 }
  predicate User(e: nat) { (e / 4) % 2 == 1 }
  predicate CacheOff(e: nat) { (e / 0x10) % 2 == 1 }
  predicate PageSize(e: nat) { (e / 0x80) % 2 == 1 }

  /** Bits 51 down to log2(size) of an entry. */
  function Frame(e: nat, size: nat): nat requires size > 0 { (e % 0x10_0000_0000_0000) / size * size }

  function Lookup(m: Memory, table: nat, index: nat): nat
    requires index < 512
  {
    if table in m && |m[table]| == 512 then m[table][index] else 0
  }

  /** What a walk finds: the physical address, and what may be done there and how. */
  datatype Page = Page(pa: nat, writable: bool, user: bool, cached: bool)

  /** The page an entry maps, under the entries above it. A right holds if all grant it. */
  function Leaf(e: nat, size: nat, va: nat, writable: bool, user: bool): Page
    requires size > 0
  {
    Page(Frame(e, size) + va % size, writable && Writable(e), user && User(e), !CacheOff(e))
  }

  /** The 4-level translation of sections 4.5, 4.6 and 4.9 of the Intel SDM Volume 3A: PML4,
      page directory pointer table, page directory, page table. */
  function Walk(m: Memory, cr3: nat, va: nat): Option<Page> {
    var e4 := Lookup(m, cr3, (va / 0x80_0000_0000) % 512);
    if !Present(e4) then None else
    var e3 := Lookup(m, Frame(e4, PAGE), (va / HUGE) % 512);
    var w3, u3 := Writable(e4), User(e4);
    if !Present(e3) then None else
    if PageSize(e3) then Some(Leaf(e3, HUGE, va, w3, u3)) else
    var e2 := Lookup(m, Frame(e3, PAGE), (va / LARGE) % 512);
    var w2, u2 := w3 && Writable(e3), u3 && User(e3);
    if !Present(e2) then None else
    if PageSize(e2) then Some(Leaf(e2, LARGE, va, w2, u2)) else
    var e1 := Lookup(m, Frame(e2, PAGE), (va / PAGE) % 512);
    if !Present(e1) then None else Some(Leaf(e1, PAGE, va, w2 && Writable(e2), u2 && User(e2)))
  }

  // ---- the loops --------------------------------------------------------

  /** Bitwise or, bit by bit. */
  function Or(a: nat, b: nat): nat
    decreases a + b
  {
    if a == 0 then b else if b == 0 then a else
      2 * Or(a / 2, b / 2) + if a % 2 == 1 || b % 2 == 1 then 1 else 0
  }

  function Pow2(n: nat): nat { if n == 0 then 1 else 2 * Pow2(n - 1) }

  /** Or-ing n bits of flags into a multiple of 2^n is adding them. */
  lemma {:induction false} OrIsAdd(q: nat, f: nat, n: nat)
    requires f < Pow2(n)
    ensures Or(Pow2(n) * q, f) == Pow2(n) * q + f
    decreases n
  {
    var a := Pow2(n) * q;
    if n == 0 || f == 0 || a == 0 {
    } else {
      assert a == 2 * (Pow2(n - 1) * q);
      OrIsAdd(q, f / 2, n - 1);
    }
  }

  lemma FlagsAdd(a: nat, flags: nat)
    requires a % PAGE == 0 && flags < PAGE
    ensures Or(a, flags) == a + flags
  {
    assert Pow2(12) == PAGE by { assert Pow2(6) == 64; }
    assert a == PAGE * (a / PAGE);
    OrIsAdd(a / PAGE, flags, 12);
  }

  predicate TableAddr(a: nat) { a % PAGE == 0 && a < WORD }

  /** A 32-bit store to the low half of entry i. */
  method StoreLow(table: array<nat>, i: nat, eax: nat)
    requires i < table.Length && eax < WORD
    modifies table
    ensures table[i] == old(table[i]) - old(table[i]) % WORD + eax
    ensures forall k :: 0 <= k < table.Length && k != i ==> table[k] == old(table[k])
  {
    table[i] := table[i] - table[i] % WORD + eax;
  }

  /** Fill entries 0..count-1 with 2 MiB pages from `base` on. */
  method MapPages(table: array<nat>, base: nat, flags: nat, count: nat)
    requires table.Length == 512 && 1 <= count <= 512 && flags < PAGE
    requires base % PAGE == 0 && base + count * LARGE <= WORD
    requires forall k :: 0 <= k < 512 ==> table[k] == 0
    modifies table
    ensures forall k :: 0 <= k < 512 ==> table[k] == if k < count then base + LARGE * k + flags else 0
  {
    hide Or;
    var ecx := 0;
    while ecx != count
      invariant 0 <= ecx <= count
      invariant forall k :: 0 <= k < 512 ==> table[k] == if k < ecx then base + LARGE * k + flags else 0
    {
      var eax := (LARGE * ecx) % WORD;
      eax := (eax + base) % WORD;
      FlagsAdd(eax, flags);
      eax := Or(eax, flags);
      StoreLow(table, ecx, eax);
      ecx := ecx + 1;
    }
  }

  /** What the four tables hold when set up. */
  predicate SetUp(l4: seq<nat>, l3: seq<nat>, l2: seq<nat>, mmio: seq<nat>, l3At: nat, l2At: nat, mmioAt: nat) {
    && |l4| == |l3| == |l2| == |mmio| == 512
    && (forall k :: 0 <= k < 512 ==> l4[k] == if k == 0 then l3At + TABLE_FLAGS else 0)
    && (forall k :: 0 <= k < 512 ==>
          l3[k] == if k == 0 then l2At + TABLE_FLAGS else if k == 1 then mmioAt + TABLE_FLAGS else 0)
    && (forall k :: 0 <= k < 512 ==> l2[k] == LARGE * k + LARGE_FLAGS)
    && (forall k :: 0 <= k < 512 ==> mmio[k] == if k < 2 then MMIO + LARGE * k + MMIO_FLAGS else 0)
  }

  /** `setup_page_tables` on zeroed tables. */
  method Build(l4: array<nat>, l3: array<nat>, l2: array<nat>, mmio: array<nat>, l3At: nat, l2At: nat, mmioAt: nat)
    requires l4.Length == l3.Length == l2.Length == mmio.Length == 512
    requires l4 != l3 && l4 != l2 && l4 != mmio && l3 != l2 && l3 != mmio && l2 != mmio
    requires TableAddr(l3At) && TableAddr(l2At) && TableAddr(mmioAt)
    requires forall k :: 0 <= k < 512 ==> l4[k] == 0 && l3[k] == 0 && l2[k] == 0 && mmio[k] == 0
    modifies l4, l3, l2, mmio
    ensures SetUp(l4[..], l3[..], l2[..], mmio[..], l3At, l2At, mmioAt)
  {
    hide Or;
    FlagsAdd(l3At, TABLE_FLAGS);
    FlagsAdd(l2At, TABLE_FLAGS);
    FlagsAdd(mmioAt, TABLE_FLAGS);
    StoreLow(l4, 0, Or(l3At, TABLE_FLAGS));
    StoreLow(l3, 0, Or(l2At, TABLE_FLAGS));
    MapPages(l2, 0, LARGE_FLAGS, 512);
    StoreLow(l3, 1, Or(mmioAt, TABLE_FLAGS));
    MapPages(mmio, MMIO, MMIO_FLAGS, 2);
  }

  // ---- the mapping ------------------------------------------------------

  lemma TableEntry(a: nat)
    requires TableAddr(a)
    ensures Present(a + TABLE_FLAGS) && !PageSize(a + TABLE_FLAGS) && Frame(a + TABLE_FLAGS, PAGE) == a
    ensures Writable(a + TABLE_FLAGS) && !User(a + TABLE_FLAGS)
  {
    var q := a / PAGE;
    assert a == PAGE * q && a / PAGE * PAGE == a;
    LowBits(q, TABLE_FLAGS);
    TableFrame(q);
  }

  lemma TableFrame(q: nat)
    requires PAGE * q < WORD
    ensures Frame(PAGE * q + TABLE_FLAGS, PAGE) == PAGE * q
  {
    var e := PAGE * q + TABLE_FLAGS;
    assert e % 0x10_0000_0000_0000 == e && e / PAGE == q;
  }

  /** Bits below the page size come from the flags. */
  lemma LowBits(q: nat, flags: nat)
    ensures var e := PAGE * q + flags;
      && (Present(e) <==> Present(flags)) && (Writable(e) <==> Writable(flags)) && (User(e) <==> User(flags))
      && (CacheOff(e) <==> CacheOff(flags)) && (PageSize(e) <==> PageSize(flags))
  {
    LowBit(2048 * q, flags, 1);
    LowBit(1024 * q, flags, 2);
    LowBit(512 * q, flags, 4);
    LowBit(128 * q, flags, 0x10);
    LowBit(16 * q, flags, 0x80);
  }

  lemma LowBit(k: nat, flags: nat, bit: nat)
    requires bit == 1 || bit == 2 || bit == 4 || bit == 0x10 || bit == 0x80
    ensures ((bit * (2 * k) + flags) / bit) % 2 == (flags / bit) % 2
  {
    Quotient(2 * k, flags, bit);
    Even(k, flags / bit);
  }

  lemma LargeFrame(q: nat, flags: nat)
    requires q < 2048 && flags < LARGE
    ensures Frame(LARGE * q + flags, LARGE) == LARGE * q
  {
    var e := LARGE * q + flags;
    assert e < WORD && e % 0x10_0000_0000_0000 == e;
    assert e / LARGE == q;
  }

  /** The bits of an entry for a 2 MiB page are those of its flags. */
  lemma LargeEntry(q: nat, flags: nat)
    requires q < 2048 && (flags == LARGE_FLAGS || flags == MMIO_FLAGS)
    ensures Present(LARGE * q + flags) && PageSize(LARGE * q + flags) && Frame(LARGE * q + flags, LARGE) == LARGE * q
    ensures Writable(LARGE * q + flags) && !User(LARGE * q + flags)
    ensures CacheOff(LARGE * q + flags) <==> flags == MMIO_FLAGS
  {
    LargeFrame(q, flags);
    LowBits(512 * q, flags);
  }

  lemma Quotient(k: nat, low: nat, bit: nat)
    requires bit == 1 || bit == 2 || bit == 4 || bit == 0x10 || bit == 0x80
    ensures (bit * k + low) / bit == k + low / bit
  {
  }

  lemma Even(k: nat, low: nat)
    ensures (2 * k + low) % 2 == low % 2
  {
  }

  /** How an address below 2 GiB splits. */
  lemma Split(va: nat)
    requires va < 0x1_0000_0000_0000
    ensures va < 2 * HUGE ==> (va / 0x80_0000_0000) % 512 == 0 && (va / HUGE) % 512 == va / HUGE
    ensures (va / 0x80_0000_0000) % 512 == 0 && (va / HUGE) % 512 < 2 ==> va < 2 * HUGE
    ensures LARGE * ((va / LARGE) % 512) + va % LARGE == va % HUGE
  {
  }

  /** Over the tables the loops build, the walk maps the first GiB to itself, cached, the next
      4 MiB to the device registers, uncached, both writable by the kernel alone, and nothing
      else at all. */
  lemma WalkExactly(l4: seq<nat>, l3: seq<nat>, l2: seq<nat>, mmio: seq<nat>,
                    l4At: nat, l3At: nat, l2At: nat, mmioAt: nat, va: nat)
    requires SetUp(l4, l3, l2, mmio, l3At, l2At, mmioAt)
    requires TableAddr(l4At) && TableAddr(l3At) && TableAddr(l2At) && TableAddr(mmioAt)
    requires l4At != l3At && l4At != l2At && l4At != mmioAt && l3At != l2At && l3At != mmioAt && l2At != mmioAt
    requires va < 0x1_0000_0000_0000
    ensures Walk(map[l4At := l4, l3At := l3, l2At := l2, mmioAt := mmio], l4At, va)
      == if va < HUGE then Some(Page(va, true, false, true))
         else if va < HUGE + 2 * LARGE then Some(Page(MMIO + (va - HUGE), true, false, false))
         else None
  {
    var m := map[l4At := l4, l3At := l3, l2At := l2, mmioAt := mmio];
    Split(va);
    TableEntry(l3At);
    TableEntry(l2At);
    TableEntry(mmioAt);
    var i := (va / LARGE) % 512;
    assert m[l4At] == l4 && m[l3At] == l3 && m[l2At] == l2 && m[mmioAt] == mmio;
    if va >= 2 * HUGE {
      assert Walk(m, l4At, va) == None;
    } else if va < HUGE {
      LargeEntry(i, LARGE_FLAGS);
      assert Lookup(m, l2At, i) == LARGE * i + LARGE_FLAGS;
    } else {
      assert Lookup(m, l3At, (va / HUGE) % 512) == mmioAt + TABLE_FLAGS;
      if i < 2 {
        LargeEntry(2038 + i, MMIO_FLAGS);
        assert Lookup(m, mmioAt, i) == MMIO + LARGE * i + MMIO_FLAGS;
      } else {
        assert Lookup(m, mmioAt, i) == 0;
      }
    }
  }
}
