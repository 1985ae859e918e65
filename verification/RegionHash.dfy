/** The region hash of the security service: in-place bitwise mixing of an array.

    The algorithm is stated over any element type with the handful of operations it uses;
    what is proved needs only that they are injective. `Bytes8` then supplies the bytes. */
module Mixing {

  /** Initial pattern, `a ^= b + i`, the two rotations, `a ^= 3 * b` and `a ^= b`. */
  datatype Ops<!T> = Ops(pattern: nat -> T, absorb: (T, T, nat) -> T, rotL5: T -> T,
                         cross: (T, T) -> T, xor: (T, T) -> T, rotL3: T -> T)

  function Init<T>(ops: Ops<T>, h: nat): seq<T> { seq(h, i requires i >= 0 => ops.pattern(i)) }

  /** Absorb region byte b at index i. */
  function Mix<T>(ops: Ops<T>, s: seq<T>, i: nat, b: T): (s': seq<T>)
    requires s != []
    ensures |s'| == |s|
  {
    var k := i % |s|;
    var s1 := s[k := ops.rotL5(ops.absorb(s[k], b, i))];
    var j := (k + 1) % |s|;
    s1[j := ops.cross(s1[j], b)]
  }

  function MixFrom<T>(ops: Ops<T>, s: seq<T>, i: nat, bytes: seq<T>): (s': seq<T>)
    requires bytes != [] ==> s != []
    ensures |s'| == |s|
    decreases |bytes|
  {
    if bytes == [] then s else MixFrom(ops, Mix(ops, s, i, bytes[0]), i + 1, bytes[1..])
  }

  /** Step i of the final pass. */
  function Final<T>(ops: Ops<T>, s: seq<T>, i: nat): (s': seq<T>)
    requires i < |s|
    ensures |s'| == |s|
  {
    s[i := ops.rotL3(ops.xor(s[i], s[(i + 7) % |s|]))]
  }

  function FinalFrom<T>(ops: Ops<T>, s: seq<T>, i: nat): (s': seq<T>)
    requires i <= |s|
    ensures |s'| == |s|
    decreases |s| - i
  {
    if i == |s| then s else FinalFrom(ops, Final(ops, s, i), i + 1)
  }

  function Hash<T>(ops: Ops<T>, region: seq<T>, h: nat): (s: seq<T>)
    requires region != [] ==> h > 0
    ensures |s| == h
  {
    FinalFrom(ops, MixFrom(ops, Init(ops, h), 0, region), 0)
  }

  // ---- the in-place algorithm -------------------------------------------

  lemma {:induction false} MixFromNext<T>(ops: Ops<T>, s: seq<T>, i: nat, bytes: seq<T>, b: T)
    requires s != []
    ensures MixFrom(ops, s, i, bytes + [b]) == Mix(ops, MixFrom(ops, s, i, bytes), i + |bytes|, b)
    decreases |bytes|
  {
    if bytes == [] {
      assert ([] + [b])[1..] == [];
      assert MixFrom(ops, Mix(ops, s, i, b), i + 1, []) == Mix(ops, s, i, b);
    } else {
      assert (bytes + [b])[1..] == bytes[1..] + [b];
      MixFromNext(ops, Mix(ops, s, i, bytes[0]), i + 1, bytes[1..], b);
    }
  }

  /** `_sec_hash`: its three loops. An empty hash is possible only with an empty region. */
  method Compute<T>(ops: Ops<T>, region: seq<T>, hash: array<T>)
    requires region != [] ==> hash.Length > 0
    modifies hash
    ensures hash[..] == Hash(ops, region, hash.Length)
  {
    Pattern(ops, hash);
    Absorb(ops, region, hash);
    Finish(ops, hash);
  }

  method Pattern<T>(ops: Ops<T>, hash: array<T>)
    modifies hash
    ensures hash[..] == Init(ops, hash.Length)
  {
    var i := 0;
    while i < hash.Length
      invariant 0 <= i <= hash.Length
      invariant hash[..i] == Init(ops, hash.Length)[..i]
    {
      hash[i] := ops.pattern(i);
      i := i + 1;
    }
  }

  method Absorb<T>(ops: Ops<T>, region: seq<T>, hash: array<T>)
    requires region != [] ==> hash.Length > 0
    modifies hash
    ensures hash[..] == MixFrom(ops, old(hash[..]), 0, region)
  {
    var i := 0;
    while i < |region|
      invariant 0 <= i <= |region|
      invariant hash[..] == MixFrom(ops, old(hash[..]), 0, region[..i])
    {
      MixStep(ops, hash, i, region[i]);
      MixFromNext(ops, old(hash[..]), 0, region[..i], region[i]);
      assert region[..i + 1] == region[..i] + [region[i]];
      i := i + 1;
    }
    assert region[..i] == region;
  }

  method Finish<T>(ops: Ops<T>, hash: array<T>)
    modifies hash
    ensures hash[..] == FinalFrom(ops, old(hash[..]), 0)
  {
    var i := 0;
    while i < hash.Length
      invariant 0 <= i <= hash.Length
      invariant FinalFrom(ops, hash[..], i) == FinalFrom(ops, old(hash[..]), 0)
    {
      FinalStep(ops, hash, i);
      i := i + 1;
    }
  }

  /** The body of the main loop. */
  method MixStep<T>(ops: Ops<T>, hash: array<T>, i: nat, b: T)
    requires hash.Length > 0
    modifies hash
    ensures hash[..] == Mix(ops, old(hash[..]), i, b)
  {
    var h := hash.Length;
    var k := i % h;
    hash[k] := ops.absorb(hash[k], b, i);
    hash[k] := ops.rotL5(hash[k]);
    hash[(k + 1) % h] := ops.cross(hash[(k + 1) % h], b);
  }

  /** The body of the final loop. */
  method FinalStep<T>(ops: Ops<T>, hash: array<T>, i: nat)
    requires i < hash.Length
    modifies hash
    ensures hash[..] == Final(ops, old(hash[..]), i)
  {
    var h := hash.Length;
    hash[i] := ops.xor(hash[i], hash[(i + 7) % h]);
    hash[i] := ops.rotL3(hash[i]);
  }

  // ---- element by element -------------------------------------------------

  /** Element k after one step of the main loop. */
  lemma MixAt<T>(ops: Ops<T>, s: seq<T>, i: nat, b: T, k: nat)
    requires k < |s|
    ensures var taken := if i % |s| == k then ops.rotL5(ops.absorb(s[k], b, i)) else s[k];
      Mix(ops, s, i, b)[k] == if (i % |s| + 1) % |s| == k then ops.cross(taken, b) else taken
  {
  }

  /** Element k after the final pass over s: it meets the one seven on, which has been through
      the pass already if it comes before k. */
  function Passed<T>(ops: Ops<T>, s: seq<T>, k: nat): T
    requires k < |s|
    decreases k
  {
    var j := (k + 7) % |s|;
    ops.rotL3(ops.xor(s[k], if j < k then Passed(ops, s, j) else s[j]))
  }

  lemma {:induction false} FinalPasses<T>(ops: Ops<T>, s: seq<T>, t: seq<T>, i: nat)
    requires i <= |s| == |t|
    requires forall n :: 0 <= n < |s| ==> t[n] == if n < i then Passed(ops, s, n) else s[n]
    ensures forall n :: 0 <= n < |s| ==> FinalFrom(ops, t, i)[n] == Passed(ops, s, n)
    decreases |s| - i
  {
    if i == |s| {
    } else {
      FinalPasses(ops, s, Final(ops, t, i), i + 1);
    }
  }

  // ---- injectivity ------------------------------------------------------

  ghost predicate Injective<T(!new)>(ops: Ops<T>) {
    && (forall a, b :: ops.rotL5(a) == ops.rotL5(b) ==> a == b)
    && (forall a, b :: ops.rotL3(a) == ops.rotL3(b) ==> a == b)
    && (forall a, b, x, i :: ops.absorb(a, x, i) == ops.absorb(b, x, i) ==> a == b)
    && (forall a, x, y, i :: ops.absorb(a, x, i) == ops.absorb(a, y, i) ==> x == y)
    && (forall a, b, x :: ops.cross(a, x) == ops.cross(b, x) ==> a == b)
    && (forall a, b, x :: ops.xor(a, x) == ops.xor(b, x) ==> a == b)
  }

  /** The state before a mixing step can be told from the state after it. */
  lemma MixInjective<T(!new)>(ops: Ops<T>, s: seq<T>, t: seq<T>, i: nat, b: T)
    requires Injective(ops) && s != [] && |s| == |t| && Mix(ops, s, i, b) == Mix(ops, t, i, b)
    ensures s == t
  {
    var k := i % |s|;
    var j := (k + 1) % |s|;
    var s1, t1 := s[k := ops.rotL5(ops.absorb(s[k], b, i))], t[k := ops.rotL5(ops.absorb(t[k], b, i))];
    var s2, t2 := Mix(ops, s, i, b), Mix(ops, t, i, b);
    assert s2[j] == ops.cross(s1[j], b) && t2[j] == ops.cross(t1[j], b);
    forall n | 0 <= n < |s| ensures s[n] == t[n] {
      assert n != j ==> s2[n] == s1[n] && t2[n] == t1[n];
      assert s1[n] == t1[n];
    }
  }

  lemma NextPlace(k: nat, h: nat)
    requires k < h && h >= 2
    ensures (k + 1) % h != k
  {
    if k + 1 < h { assert (k + 1) % h == k + 1; }
  }

  /** From one state, two different bytes lead to two different states. */
  lemma MixSeparates<T(!new)>(ops: Ops<T>, s: seq<T>, i: nat, b: T, c: T)
    requires Injective(ops) && |s| >= 2 && b != c
    ensures Mix(ops, s, i, b) != Mix(ops, s, i, c)
  {
    var k := i % |s|;
    NextPlace(k, |s|);
    assert Mix(ops, s, i, b)[k] == ops.rotL5(ops.absorb(s[k], b, i));
    assert Mix(ops, s, i, c)[k] == ops.rotL5(ops.absorb(s[k], c, i));
  }

  lemma {:induction false} MixFromInjective<T(!new)>(ops: Ops<T>, s: seq<T>, t: seq<T>, i: nat, bytes: seq<T>)
    requires Injective(ops) && s != [] && |s| == |t| && s != t
    ensures MixFrom(ops, s, i, bytes) != MixFrom(ops, t, i, bytes)
    decreases |bytes|
  {
    if bytes == [] {
    } else {
      var s1, t1 := Mix(ops, s, i, bytes[0]), Mix(ops, t, i, bytes[0]);
      if s1 == t1 { MixInjective(ops, s, t, i, bytes[0]); }
      MixFromInjective(ops, s1, t1, i + 1, bytes[1..]);
    }
  }

  /** Seven on from i is another place, unless the size divides seven. */
  lemma SevenOn(i: nat, h: nat)
    requires i < h && h != 1 && h != 7
    ensures (i + 7) % h != i
  {
    if h > 7 && i + 7 >= h { assert (i + 7) % h == i + 7 - h; }
  }

  lemma FinalInjective<T(!new)>(ops: Ops<T>, s: seq<T>, t: seq<T>, i: nat)
    requires Injective(ops) && i < |s| == |t| && |s| != 1 && |s| != 7 && Final(ops, s, i) == Final(ops, t, i)
    ensures s == t
  {
    var s', t', j := Final(ops, s, i), Final(ops, t, i), (i + 7) % |s|;
    SevenOn(i, |s|);
    assert s[j] == s'[j] == t'[j] == t[j];
    assert s'[i] == t'[i];
    forall n | 0 <= n < |s| ensures s[n] == t[n] {
      assert n != i ==> s'[n] == s[n] && t'[n] == t[n];
    }
  }

  lemma {:induction false} FinalFromInjective<T(!new)>(ops: Ops<T>, s: seq<T>, t: seq<T>, i: nat)
    requires Injective(ops) && i <= |s| == |t| && |s| != 1 && |s| != 7 && s != t
    ensures FinalFrom(ops, s, i) != FinalFrom(ops, t, i)
    decreases |s| - i
  {
    if i == |s| {
    } else {
      if Final(ops, s, i) == Final(ops, t, i) { FinalInjective(ops, s, t, i); }
      FinalFromInjective(ops, Final(ops, s, i), Final(ops, t, i), i + 1);
    }
  }

  lemma {:induction false} ChangedByteSeparates<T(!new)>(ops: Ops<T>, s: seq<T>, i: nat, region: seq<T>, k: nat, c: T)
    requires Injective(ops) && |s| >= 2 && k < |region| && region[k] != c
    ensures MixFrom(ops, s, i, region) != MixFrom(ops, s, i, region[k := c])
    decreases k
  {
    var region' := region[k := c];
    if k == 0 {
      MixSeparates(ops, s, i, region[0], c);
      assert region'[1..] == region[1..];
      MixFromInjective(ops, Mix(ops, s, i, region[0]), Mix(ops, s, i, c), i + 1, region[1..]);
    } else {
      assert region'[1..] == region[1..][k - 1 := c];
      ChangedByteSeparates(ops, Mix(ops, s, i, region[0]), i + 1, region[1..], k - 1, c);
    }
  }

  /** A region with one byte changed, of any length and wherever the byte is, has another hash. */
  lemma OneByteDetected<T(!new)>(ops: Ops<T>, region: seq<T>, k: nat, c: T, h: nat)
    requires Injective(ops) && k < |region| && region[k] != c && h >= 2 && h != 7
    ensures Hash(ops, region, h) != Hash(ops, region[k := c], h)
  {
    var s := Init(ops, h);
    ChangedByteSeparates(ops, s, 0, region, k, c);
    FinalFromInjective(ops, MixFrom(ops, s, 0, region), MixFrom(ops, s, 0, region[k := c]), 0);
  }

  /** When the size divides seven, every element of the final pass meets itself. */
  lemma {:induction false} FinalErases<T(!new)>(ops: Ops<T>, s: seq<T>, i: nat, zero: T)
    requires forall a :: ops.rotL3(ops.xor(a, a)) == zero
    requires i <= |s| && (|s| == 1 || |s| == 7) && forall n :: 0 <= n < i ==> s[n] == zero
    ensures FinalFrom(ops, s, i) == seq(|s|, _ => zero)
    decreases |s| - i
  {
    if i == |s| {
    } else {
      assert (i + 7) % |s| == i;
      FinalErases(ops, Final(ops, s, i), i + 1, zero);
    }
  }
}

/** The hash over bytes. */
module RegionHash {
  import opened Mixing

  function Low(i: nat): bv8 { (i % 256) as bv8 }

  const BYTES: Ops<bv8> := Ops(
    (i: nat) => Low(i * 31 + 17),
    (a: bv8, b: bv8, i: nat) => a ^ (b + Low(i)),
    (a: bv8) => (a << 5) | (a >> 3),
    (a: bv8, b: bv8) => a ^ (b * 3),
    (a: bv8, b: bv8) => a ^ b,
    (a: bv8) => (a << 3) | (a >> 5))

  // ---- the hash in plain arithmetic ----------------------------------------

  /** The low byte of a number. */
  lemma LowIs(q: nat, c: bv8)
    ensures Low(256 * q + c as nat) == c
  {
    var x := c as nat;
    Remainder(q, x);
    Narrowed(c);
  }

  lemma Remainder(q: nat, x: nat)
    requires x < 256
    ensures (256 * q + x) % 256 == x
  {
  }

  lemma Narrowed(c: bv8)
    ensures (c as nat) as bv8 == c
  {
  }

  /** The operations in arithmetic modulo 256. A rotation by 5 is undone by one by 3. */
  lemma Arithmetic(a: bv8, b: bv8, i: nat)
    ensures BYTES.pattern(i) == Low(17 + 31 * i) && BYTES.absorb(a, b, i) == a ^ (b + Low(i))
    ensures BYTES.rotL5(a) == a * 32 + a / 8 && BYTES.rotL3(a) == a * 8 + a / 32
    ensures BYTES.rotL3(BYTES.rotL5(a)) == a
    ensures BYTES.cross(a, b) == a ^ (b + b + b) && BYTES.xor(a, b) == a ^ b
  {
    hide *;
    Simple(a, b, i);
    Rotations(a);
    Back(a);
    Triple(a, b);
  }

  lemma Simple(a: bv8, b: bv8, i: nat)
    ensures BYTES.pattern(i) == Low(17 + 31 * i) && BYTES.absorb(a, b, i) == a ^ (b + Low(i))
    ensures BYTES.xor(a, b) == a ^ b
  {
    hide Low;
    assert i * 31 + 17 == 17 + 31 * i;
  }

  lemma Rotations(a: bv8)
    ensures BYTES.rotL5(a) == a * 32 + a / 8 && BYTES.rotL3(a) == a * 8 + a / 32
  {
  }

  lemma Back(a: bv8)
    ensures BYTES.rotL3(BYTES.rotL5(a)) == a
  {
    var b := (a << 5) | (a >> 3);
    assert (b << 3) | (b >> 5) == a;
  }

  lemma Triple(a: bv8, b: bv8)
    ensures BYTES.cross(a, b) == a ^ (b + b + b)
  {
    assert b * 3 == b + b + b;
  }

  /** One region byte taken up, one crossed in, and one step of the last pass. */
  function Taken(a: bv8, b: bv8, i: nat): bv8 {
    var x := a ^ (b + Low(i));
    x * 32 + x / 8
  }

  function Crossed(a: bv8, b: bv8): bv8 { a ^ (b + b + b) }

  function Last(a: bv8, b: bv8): bv8 {
    var x := a ^ b;
    x * 8 + x / 32
  }

  lemma StepsAre(a: bv8, b: bv8, i: nat)
    ensures BYTES.pattern(i) == Low(17 + 31 * i)
    ensures BYTES.rotL5(BYTES.absorb(a, b, i)) == Taken(a, b, i)
    ensures BYTES.cross(a, b) == Crossed(a, b) && BYTES.rotL3(BYTES.xor(a, b)) == Last(a, b)
  {
    hide *;
    Arithmetic(a, b, i);
    TakenIs(a, b, i);
    LastIs(a, b);
  }

  lemma TakenIs(a: bv8, b: bv8, i: nat)
    ensures BYTES.rotL5(BYTES.absorb(a, b, i)) == Taken(a, b, i) && BYTES.cross(a, b) == Crossed(a, b)
  {
    hide BYTES, Low;
    Arithmetic(a, b, i);
    Arithmetic(a ^ (b + Low(i)), 0, 0);
  }

  lemma LastIs(a: bv8, b: bv8)
    ensures BYTES.rotL3(BYTES.xor(a, b)) == Last(a, b)
  {
    hide BYTES, Low;
    Arithmetic(a, b, 0);
    Arithmetic(a ^ b, 0, 0);
  }

  /** Byte k of a hash of size h after the first n bytes of the region, by itself: it starts
      from its pattern, takes up every h-th region byte with a rotation, and is crossed with
      three times the byte before each of those. */
  function Column(region: seq<bv8>, h: nat, k: nat, n: nat): bv8
    requires k < h && n <= |region|
  {
    if n == 0 then Low(17 + 31 * k)
    else
      var c, b := Column(region, h, k, n - 1), region[n - 1];
      var t := if (n - 1) % h == k then Taken(c, b, n - 1) else c;
      if ((n - 1) % h + 1) % h == k then Crossed(t, b) else t
  }

  /** Byte k of the finished hash. */
  function Answer(region: seq<bv8>, h: nat, k: nat): bv8
    requires k < h
    decreases k
  {
    var j := (k + 7) % h;
    Last(Column(region, h, k, |region|), if j < k then Answer(region, h, j) else Column(region, h, j, |region|))
  }

  /** The hash, byte by byte and in arithmetic alone, for every region and size. */
  lemma HashIs(region: seq<bv8>, h: nat, k: nat)
    requires k < h
    ensures Hash(BYTES, region, h)[k] == Answer(region, h, k)
  {
    var s := MixFrom(BYTES, Init(BYTES, h), 0, region);
    FinalPasses(BYTES, s, s, 0);
    assert region[..|region|] == region;
    MixColumns(region, h, |region|);
    PassedIs(region, h, s, k);
  }

  lemma {:induction false} PassedIs(region: seq<bv8>, h: nat, s: seq<bv8>, k: nat)
    requires k < h == |s| && forall n :: 0 <= n < h ==> s[n] == Column(region, h, n, |region|)
    ensures Passed(BYTES, s, k) == Answer(region, h, k)
    decreases k
  {
    var j := (k + 7) % h;
    if j < k { PassedIs(region, h, s, j); }
    var d := if j < k then Passed(BYTES, s, j) else s[j];
    hide BYTES, Last;
    StepsAre(s[k], d, 0);
  }

  lemma {:induction false} MixColumns(region: seq<bv8>, h: nat, n: nat)
    requires n <= |region| && h > 0
    ensures forall k :: 0 <= k < h ==>
      MixFrom(BYTES, Init(BYTES, h), 0, region[..n])[k] == Column(region, h, k, n)
    decreases n
  {
    hide BYTES, Low, Mix, Taken, Crossed;
    if n == 0 {
      forall k | 0 <= k < h ensures Init(BYTES, h)[k] == Column(region, h, k, 0) { StepsAre(0, 0, k); }
    } else {
      var s := MixFrom(BYTES, Init(BYTES, h), 0, region[..n - 1]);
      MixColumns(region, h, n - 1);
      assert region[..n] == region[..n - 1] + [region[n - 1]];
      MixFromNext(BYTES, Init(BYTES, h), 0, region[..n - 1], region[n - 1]);
      forall k | 0 <= k < h ensures Mix(BYTES, s, n - 1, region[n - 1])[k] == Column(region, h, k, n) {
        MixColumn(region, h, s, k, n);
      }
    }
  }

  lemma MixColumn(region: seq<bv8>, h: nat, s: seq<bv8>, k: nat, n: nat)
    requires k < h == |s| && 1 <= n <= |region| && s[k] == Column(region, h, k, n - 1)
    ensures Mix(BYTES, s, n - 1, region[n - 1])[k] == Column(region, h, k, n)
  {
    hide BYTES, Low, Mix, Taken, Crossed;
    var b, i := region[n - 1], n - 1;
    MixAt(BYTES, s, i, b, k);
    StepsAre(s[k], b, i);
    StepsAre(Taken(s[k], b, i), b, i);
  }

  /** `_sec_hash` on bytes. */
  method HashRegion(region: seq<bv8>, hash: array<bv8>)
    requires region != [] ==> hash.Length > 0
    modifies hash
    ensures forall k :: 0 <= k < hash.Length ==> hash[k] == Answer(region, hash.Length, k)
  {
    Compute(BYTES, region, hash);
    forall k | 0 <= k < hash.Length ensures hash[k] == Answer(region, hash.Length, k) {
      HashIs(region, hash.Length, k);
      assert hash[..][k] == hash[k];
    }
  }

  /** The hash of size 2 of the region of one byte 1. */
  lemma KnownAnswer()
    ensures Hash(BYTES, [1], 2) == [137, 213]
  {
    hide BYTES, Hash, Low, Column;
    var r: seq<bv8> := [1];
    KnownColumns(r);
    assert Last(2, 51) == 137 && Last(51, 137) == 213;
    hide Last;
    assert Answer(r, 2, 0) == 137;
    assert Answer(r, 2, 1) == 213;
    HashIs(r, 2, 0);
    HashIs(r, 2, 1);
  }

  lemma KnownColumns(r: seq<bv8>)
    requires r == [1]
    ensures Column(r, 2, 0, 1) == 2 && Column(r, 2, 1, 1) == 51
  {
    assert Low(17) == 17 && Low(48) == 48 && Low(0) == 0;
    assert Taken(17, 1, 0) == 2 && Crossed(48, 1) == 51;
    hide Low, Taken, Crossed;
    assert Column(r, 2, 0, 0) == 17 && Column(r, 2, 1, 0) == 48;
  }

  // ---- detection ----------------------------------------------------------

  lemma RotationsInjective(a: bv8, b: bv8)
    ensures (a << 5) | (a >> 3) == (b << 5) | (b >> 3) ==> a == b
    ensures (a << 3) | (a >> 5) == (b << 3) | (b >> 5) ==> a == b
  {
  }

  lemma SumsInjective(a: bv8, b: bv8, x: bv8, y: bv8, i: bv8)
    ensures a ^ x == b ^ x ==> a == b
    ensures a ^ (x + i) == a ^ (y + i) ==> x == y
  {
  }

  lemma AbsorbInjective()
    ensures forall a, b, x, i :: BYTES.absorb(a, x, i) == BYTES.absorb(b, x, i) ==> a == b
    ensures forall a, x, y, i :: BYTES.absorb(a, x, i) == BYTES.absorb(a, y, i) ==> x == y
  {
    forall a, b, x, i ensures BYTES.absorb(a, x, i) == BYTES.absorb(b, x, i) ==> a == b {
      SumsInjective(a, b, x + Low(i), 0, 0);
    }
    forall a, x, y, i ensures BYTES.absorb(a, x, i) == BYTES.absorb(a, y, i) ==> x == y {
      SumsInjective(a, a, x, y, Low(i));
    }
  }

  lemma BytesInjective()
    ensures Injective(BYTES)
  {
    AbsorbInjective();
    forall a, b ensures BYTES.rotL5(a) == BYTES.rotL5(b) ==> a == b { RotationsInjective(a, b); }
    forall a, b ensures BYTES.rotL3(a) == BYTES.rotL3(b) ==> a == b { RotationsInjective(a, b); }
    forall a, b, x ensures BYTES.cross(a, x) == BYTES.cross(b, x) ==> a == b { SumsInjective(a, b, x * 3, 0, 0); }
    forall a, b, x ensures BYTES.xor(a, x) == BYTES.xor(b, x) ==> a == b { SumsInjective(a, b, x, 0, 0); }
  }

  lemma BytesCancel(a: bv8)
    ensures BYTES.rotL3(BYTES.xor(a, a)) == 0
  {
  }

  /** Whether the hash of the region differs from that of the region with byte k set to c. */
  ghost predicate Detects(h: nat, region: seq<bv8>, k: nat, c: bv8)
    requires h > 0 && k < |region|
  {
    Hash(BYTES, region, h) != Hash(BYTES, region[k := c], h)
  }

  /** Single-byte changes are always detected exactly when the hash size is neither 1 nor 7;
      for those two sizes all regions hash to zeros. */
  lemma DetectionExactly(h: nat)
    requires h > 0
    ensures (forall region, k, c :: 0 <= k < |region| && region[k] != c ==> Detects(h, region, k, c))
            <==> h != 1 && h != 7
    ensures h == 1 || h == 7 ==> forall region :: Hash(BYTES, region, h) == seq(h, _ => 0)
  {
    if h == 1 || h == 7 {
      forall region ensures Hash(BYTES, region, h) == seq(h, _ => 0) {
        forall a: bv8 ensures BYTES.rotL3(BYTES.xor(a, a)) == 0 { BytesCancel(a); }
        FinalErases(BYTES, MixFrom(BYTES, Init(BYTES, h), 0, region), 0, 0);
      }
      assert !Detects(h, [0], 0, 1);
    } else {
      BytesInjective();
      forall region, k, c | 0 <= k < |region| && region[k] != c ensures Detects(h, region, k, c) {
        OneByteDetected(BYTES, region, k, c, h);
      }
    }
  }
}
