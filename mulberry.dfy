/**
  The Mulberry32 generator of bottle-sim.ts: a closure over a numeric seed that
  adds a fixed odd constant on every call and mixes the new seed down to a
  32-bit value, returned as a fraction of 2^32.

  The captured seed is a JavaScript number that is never wrapped; every
  bitwise operator reads it through ToInt32/ToUint32, which for an integer is
  its residue modulo 2^32. The mixing itself is exact 32-bit arithmetic
  (Math.imul and the ToInt32 of an int32 sum both wrap), so it is written on
  bv32.
 */
module Mulberry {

  /** The constant added to the seed before every draw. */
  const Increment: int := 0x6D2B79F5

  const TwoTo32: int := 0x1_0000_0000

  /**
    The three mixing rounds applied to the 32-bit pattern of the seed. The
    contract pins the mixed values of the first states of mulberry32(0) and
    mulberry32(1) and of the second state of mulberry32(0), as the JavaScript
    int32 arithmetic gives them.
   */
  function Mix(s: bv32): (r: bv32)
    ensures s == 0x6D2B79F5 ==> r == 1144304738
    ensures s == 0x6D2B79F6 ==> r == 2693262067
    ensures s == 0xDA56F3EA ==> r == 1416247
  {
    var t1 := (s ^ (s >> 15)) * (s | 1);
    var t2 := t1 ^ (t1 + (t1 ^ (t1 >> 7)) * (t1 | 61));
    t2 ^ (t2 >> 14)
  }

  /** The value a call returns once the seed has been advanced to `seed`. */
  function Output(seed: int): (r: real)
    ensures 0.0 <= r < 1.0
  {
    var bits := (seed % TwoTo32) as bv32;
    (Mix(bits) as int) as real / (TwoTo32 as real)
  }

  /** The k-th value (from 0) a generator created with `seed0` returns. */
  function DrawAt(seed0: int, k: nat): real
  {
    Output(seed0 + (k + 1) * Increment)
  }

  /** The values of a generator created with `seed0`, as an oracle: call k returns `Draws(seed0)(k)`. */
  function Draws(seed0: int): nat -> real
  {
    (k: nat) => DrawAt(seed0, k)
  }

  /** The first `n` values a generator created with `seed0` returns, in order. */
  function Stream(seed0: int, n: nat): (s: seq<real>)
    ensures |s| == n
  {
    if n == 0 then [] else Stream(seed0, n - 1) + [DrawAt(seed0, n - 1)]
  }

  /** The generator object returned by mulberry32(seed) and createRng(seed). */
  class Mulberry32 {
    /** The captured seed, advanced by `Increment` on every call. */
    var seed: int
    /** The seed the generator was created with. */
    ghost const seed0: int
    /** How many values have been drawn so far. */
    ghost var calls: nat
    /** The values this generator returns, in order: call k returns `draws(k)`. */
    ghost const draws: nat -> real

    /** The oracle `draws` lists the values of a generator created with `seed0`. */
    ghost predicate Faithful()
    {
      forall k: nat {:trigger DrawAt(seed0, k)} :: draws(k) == DrawAt(seed0, k)
    }

    ghost predicate Valid()
      reads this
    {
      seed == seed0 + calls * Increment && Faithful()
    }

    constructor (seed: int)
      ensures Valid() && seed0 == seed && calls == 0 && draws == Draws(seed)
    {
      this.seed := seed;
      seed0 := seed;
      calls := 0;
      draws := Draws(seed);
    }

    /** One call of the closure: advance the seed, then mix it. */
    method Next() returns (r: real)
      requires Valid()
      modifies this
      ensures Valid() && calls == old(calls) + 1
      ensures seed == old(seed) + Increment
      ensures r == draws(old(calls))
      ensures 0.0 <= r < 1.0
    {
      ghost var k := calls;
      seed := seed + Increment;
      calls := calls + 1;
      assert seed == seed0 + (k + 1) * Increment;
      assert DrawAt(seed0, k) == Output(seed) == draws(k);
      r := Output(seed);
    }
  }

  /** createRng: a fresh generator, nothing drawn yet. */
  method CreateRng(seed: int) returns (g: Mulberry32)
    ensures fresh(g) && g.Valid() && g.seed0 == seed && g.calls == 0 && g.draws == Draws(seed)
  {
    g := new Mulberry32(seed);
  }

  /**
    Two generators created with the same seed and called alternately return
    the same sequence, and that sequence is `Stream(seed, n)`.
   */
  method SameSeedAgree(seed: int, n: nat) returns (xs: seq<real>, ys: seq<real>)
    ensures xs == ys
    ensures xs == Stream(seed, n)
  {
    var g := new Mulberry32(seed);
    var h := new Mulberry32(seed);
    xs, ys := [], [];
    var i := 0;
    while i < n
      invariant 0 <= i <= n
      invariant g != h
      invariant g.Valid() && h.Valid() && g.seed0 == seed && h.seed0 == seed
      invariant g.calls == i && h.calls == i
      invariant xs == Stream(seed, i) && ys == Stream(seed, i)
    {
      var x := g.Next();
      var y := h.Next();
      xs, ys := xs + [x], ys + [y];
      i := i + 1;
    }
  }
}
