/** Bookkeeping shared by the queue models: the fate of every item that ever
    entered a queue, recorded oldest first, and the items a set of fates selects. */
module Ledger {

  /** The items among the first `|fates|` of `items` whose fate is in `wanted`, in order. */
  function Select<T, F(==)>(items: seq<T>, fates: seq<F>, wanted: set<F>): (r: seq<T>)
    requires |fates| <= |items|
    ensures |r| <= |fates|
    decreases |fates|
  {
    if fates == [] then [] else
      var k := |fates| - 1;
      Select(items, fates[..k], wanted) + (if fates[k] in wanted then [items[k]] else [])
  }

  /** How many fates are in `wanted`. */
  function Tally<F(==)>(fates: seq<F>, wanted: set<F>): nat {
    |Select(fates, fates, wanted)|
  }

  lemma SelectOne<T, F>(items: seq<T>, fates: seq<F>, f: F, wanted: set<F>)
    requires |fates| < |items|
    ensures Select(items, fates + [f], wanted)
         == Select(items, fates, wanted) + if f in wanted then [items[|fates|]] else []
  {
    assert (fates + [f])[..|fates|] == fates;
  }

  /** Items beyond the judged prefix do not matter. */
  lemma {:induction false} SelectGrow<T, F>(items: seq<T>, more: seq<T>, fates: seq<F>, wanted: set<F>)
    requires |fates| <= |items|
    ensures Select(items + more, fates, wanted) == Select(items, fates, wanted)
    decreases |fates|
  {
    if fates == [] {
    } else {
      SelectGrow(items, more, fates[..|fates| - 1], wanted);
    }
  }

  /** Giving the next `n` items one common fate selects that block or nothing. */
  lemma {:induction false} SelectBlock<T, F>(items: seq<T>, fates: seq<F>, n: nat, f: F, wanted: set<F>)
    requires |fates| + n <= |items|
    ensures Select(items, fates + seq(n, _ => f), wanted)
         == Select(items, fates, wanted) + if f in wanted then items[|fates|..|fates| + n] else []
    decreases n
  {
    if n == 0 {
      assert fates + seq(n, _ => f) == fates;
    } else {
      SelectBlock(items, fates, n - 1, f, wanted);
      assert fates + seq(n, _ => f) == (fates + seq(n - 1, _ => f)) + [f];
      SelectOne(items, fates + seq(n - 1, _ => f), f, wanted);
    }
  }

  lemma TallyOne<F>(fates: seq<F>, f: F, wanted: set<F>)
    ensures Tally(fates + [f], wanted) == Tally(fates, wanted) + if f in wanted then 1 else 0
  {
    SelectOne(fates + [f], fates, f, wanted);
    SelectGrow(fates, [f], fates, wanted);
  }

  lemma TallyBlock<F>(fates: seq<F>, n: nat, f: F, wanted: set<F>)
    ensures Tally(fates + seq(n, _ => f), wanted) == Tally(fates, wanted) + if f in wanted then n else 0
  {
    SelectBlock(fates + seq(n, _ => f), fates, n, f, wanted);
    SelectGrow(fates, seq(n, _ => f), fates, wanted);
  }

  /** The number of items selected depends on the fates only. */
  lemma {:induction false} SelectLength<T, F>(items: seq<T>, fates: seq<F>, wanted: set<F>)
    requires |fates| <= |items|
    ensures |Select(items, fates, wanted)| == Tally(fates, wanted)
    decreases |fates|
  {
    if fates == [] {
    } else {
      var k := |fates| - 1;
      SelectLength(items, fates[..k], wanted);
      TallyOne(fates[..k], fates[k], wanted);
      assert fates[..k] + [fates[k]] == fates;
    }
  }

  /** Disjoint kinds of fate are counted separately. */
  lemma {:induction false} TallyUnion<F>(fates: seq<F>, a: set<F>, b: set<F>)
    requires a !! b
    ensures Tally(fates, a + b) == Tally(fates, a) + Tally(fates, b)
    decreases |fates|
  {
    if fates == [] {
    } else {
      var k := |fates| - 1;
      TallyUnion(fates[..k], a, b);
      assert fates[..k] + [fates[k]] == fates;
      TallyOne(fates[..k], fates[k], a);
      TallyOne(fates[..k], fates[k], b);
      TallyOne(fates[..k], fates[k], a + b);
    }
  }

  lemma {:induction false} TallyAll<F>(fates: seq<F>, a: set<F>)
    requires forall f :: f in fates ==> f in a
    ensures Tally(fates, a) == |fates|
    decreases |fates|
  {
    if fates == [] {
    } else {
      var k := |fates| - 1;
      TallyAll(fates[..k], a);
      assert fates[..k] + [fates[k]] == fates && fates[k] in fates;
      TallyOne(fates[..k], fates[k], a);
    }
  }
}
