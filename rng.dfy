/** The seeded generator used for level generation (mulberry32). Its state is
    the 32-bit counter `t`; every draw advances the counter and mixes it into
    a 32-bit output `u`; the value the game sees is u / 2^32, in [0, 1). */
module SeededRandom {

  const Increment: bv32 := 0x6d2b79f5
  const Two32: int := 0x1_0000_0000

  /** `seed >>> 0` for an integer seed. */
  function ToUint32(seed: int): bv32
  {
    (seed % Two32) as bv32
  }

  /** The output mixing applied to an already advanced counter. */
  function Mix(t: bv32): bv32
  {
    var r := (t ^ (t >> 15)) * (1 | t);
    var r' := r ^ (r + (r ^ (r >> 7)) * (61 | r));
    r' ^ (r' >> 14)
  }

  /** The counter after n draws. */
  function StateAfter(seed: bv32, n: nat): bv32
  {
    if n == 0 then seed else StateAfter(seed, n - 1) + Increment
  }

  /** Output k (counting from 0) of the generator seeded with `seed`. */
  function Output(seed: bv32, k: nat): bv32
  {
    Mix(StateAfter(seed, k + 1))
  }

  /** Advancing the counter after n draws and mixing gives output n. */
  lemma OutputAfter(seed: bv32, n: nat, t: bv32, u: bv32)
    requires t == StateAfter(seed, n) && u == Mix(t + Increment)
    ensures t + Increment == StateAfter(seed, n + 1)
    ensures u == Output(seed, n)
  {
  }

  /** The first n values of `f`, built one value at a time. */
  function Prefix<T>(f: nat -> T, n: nat): (s: seq<T>)
    ensures |s| == n
  {
    if n == 0 then [] else Prefix(f, n - 1) + [f(n - 1)]
  }

  lemma {:induction false} PrefixAt<T>(f: nat -> T, n: nat, j: nat)
    requires j < n
    ensures Prefix(f, n)[j] == f(j)
  {
    if j < n - 1 {
      PrefixAt(f, n - 1, j);
    }
  }

  lemma {:induction false} PrefixOfPrefix<T>(f: nat -> T, m: nat, n: nat)
    requires m <= n
    ensures Prefix(f, m) == Prefix(f, n)[..m]
  {
    if m < n {
      PrefixOfPrefix(f, m, n - 1);
      assert Prefix(f, n)[..n - 1] == Prefix(f, n - 1);
    }
  }

  /** Every output of the generator seeded with `seed`, by draw index: the
      values a run reads, one per call, from whatever index it has reached. */
  function Outputs(seed: bv32): nat -> bv32
  {
    (k: nat) => Output(seed, k)
  }

  /** The first n outputs of the generator seeded with `seed`. */
  function Stream(seed: bv32, n: nat): (s: seq<bv32>)
    ensures |s| == n
  {
    Prefix(Outputs(seed), n)
  }

  /** Drawing once more appends the next output and keeps the earlier ones. */
  lemma StreamNext(seed: bv32, n: nat)
    ensures Stream(seed, n + 1) == Stream(seed, n) + [Output(seed, n)]
  {
  }

  /** Entry j of a stream is output j. */
  lemma StreamAt(seed: bv32, n: nat)
    ensures forall j :: 0 <= j < n ==> Stream(seed, n)[j] == Outputs(seed)(j)
  {
    forall j | 0 <= j < n
      ensures Stream(seed, n)[j] == Outputs(seed)(j)
    {
      PrefixAt(Outputs(seed), n, j);
    }
  }

  /** Appending output n to the first n outputs gives the first n + 1. */
  lemma StreamExtends(seed: bv32, drawn: seq<bv32>, u: bv32)
    requires drawn == Stream(seed, |drawn|) && u == Output(seed, |drawn|)
    ensures drawn + [u] == Stream(seed, |drawn| + 1)
  {
    StreamNext(seed, |drawn|);
  }

  /** One draw from a valid state: the new counter, the output and the record. */
  lemma DrawExtends(seed: bv32, drawn: seq<bv32>, t: bv32, u: bv32)
    requires t == StateAfter(seed, |drawn|) && drawn == Stream(seed, |drawn|)
    requires u == Mix(t + Increment)
    ensures t + Increment == StateAfter(seed, |drawn| + 1)
    ensures u == Output(seed, |drawn|)
    ensures drawn + [u] == Stream(seed, |drawn| + 1)
  {
    OutputAfter(seed, |drawn|, t, u);
    StreamExtends(seed, drawn, u);
  }

  /** Drawing more never changes the earlier outputs. */
  lemma StreamPrefix(seed: bv32, m: nat, n: nat)
    requires m <= n
    ensures Stream(seed, m) == Stream(seed, n)[..m]
  {
    PrefixOfPrefix(Outputs(seed), m, n);
  }

  /** The first draws of seed 1, computed by the verifier from the definition. */
  lemma FirstDrawsOfSeedOne()
    ensures Stream(1, 3) == [0xa087eaf3, 0x00b349c9, 0x8706c4eb]
  {
    assert StateAfter(1, 1) == 0x6d2b79f6;
    assert StateAfter(1, 2) == 0xda56f3eb;
    assert StateAfter(1, 3) == 0x47826de0;
  }

  /** `Math.floor(rng() * n)` for the output u: exactly floor(u * n / 2^32). */
  function ScaledIndex(u: bv32, n: int): (i: int)
    ensures 1 <= n ==> 0 <= i < n
  {
    var v := u as int;
    if 1 <= n then ProductBound(v, n); (v * n) / Two32 else (v * n) / Two32
  }

  lemma ProductBound(v: int, n: int)
    requires 0 <= v < Two32 && 1 <= n
    ensures 0 <= v * n < n * Two32
  {
    assert n * Two32 - v * n == (Two32 - v) * n;
  }

  /** `randRange(rng, min, max)` for the output u. */
  function RangeValue(u: bv32, min: int, max: int): (r: int)
    ensures min <= max ==> min <= r <= max
  {
    ScaledIndex(u, max - min + 1) + min
  }

  /** `rng() > 0.5`: u / 2^32 > 1/2. */
  predicate AboveHalf(u: bv32)
  {
    u as int > 0x8000_0000
  }

  /** The closure returned by `createRng`. `drawn` records every output so far. */
  class Rng {
    var t: bv32
    ghost var seed: bv32
    ghost var drawn: seq<bv32>

    ghost predicate Valid()
      reads this
    {
      t == StateAfter(seed, |drawn|) && drawn == Stream(seed, |drawn|)
    }

    constructor (seedValue: int)
      ensures Valid()
      ensures seed == ToUint32(seedValue) && drawn == []
    {
      t := ToUint32(seedValue);
      seed := ToUint32(seedValue);
      drawn := [];
    }

    /** One call of the closure; returns the 32-bit output u. */
    method Next() returns (u: bv32)
      requires Valid()
      modifies this
      ensures Valid()
      ensures seed == old(seed) && drawn == old(drawn) + [u]
      ensures u == Output(seed, |old(drawn)|)
    {
      u := Mix(t + Increment);
      DrawExtends(seed, drawn, t, u);
      t := t + Increment;
      drawn := drawn + [u];
    }
  }

  /** `randRange`: one draw scaled into [min, max]. */
  method RandRange(rng: Rng, min: int, max: int) returns (r: int)
    requires rng.Valid()
    modifies rng
    ensures rng.Valid() && rng.seed == old(rng.seed)
    ensures |rng.drawn| == |old(rng.drawn)| + 1 && rng.drawn[..|old(rng.drawn)|] == old(rng.drawn)
    ensures r == RangeValue(rng.drawn[|rng.drawn| - 1], min, max)
    ensures min <= max ==> min <= r <= max
  {
    var u := rng.Next();
    r := ScaledIndex(u, max - min + 1) + min;
  }

  /** `Math.floor(rng() * n)`: one draw scaled into [0, n). */
  method DrawIndex(rng: Rng, n: int) returns (i: int)
    requires rng.Valid()
    modifies rng
    ensures rng.Valid() && rng.seed == old(rng.seed)
    ensures |rng.drawn| == |old(rng.drawn)| + 1 && rng.drawn[..|old(rng.drawn)|] == old(rng.drawn)
    ensures i == ScaledIndex(rng.drawn[|old(rng.drawn)|], n)
    ensures 1 <= n ==> 0 <= i < n
  {
    var u := rng.Next();
    i := ScaledIndex(u, n);
  }

  /** Two generators made from the same seed have drawn the same values
      once they have drawn equally often. */
  lemma SameSeedSameDraws(a: Rng, b: Rng)
    requires a.Valid() && b.Valid()
    requires a.seed == b.seed && |a.drawn| <= |b.drawn|
    ensures a.drawn == b.drawn[..|a.drawn|]
  {
    StreamPrefix(a.seed, |a.drawn|, |b.drawn|);
  }
}
