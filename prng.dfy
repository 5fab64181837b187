/** `XorshiftGenerator`: Marsaglia's 64-bit xorshift generator with shifts 13, 7 and 17. */
module Prng {

  /** The three xorshift updates of one step, in order. */
  function XorShl13(x: bv64): bv64 { x ^ (x << 13) }
  function XorShr7(x: bv64): bv64 { x ^ (x >> 7) }
  function XorShl17(x: bv64): bv64 { x ^ (x << 17) }

  /** One step of the generator on its 64-bit state. */
  function Step(x: bv64): bv64
  {
    XorShl17(XorShr7(XorShl13(x)))
  }

  /** The state after `n` steps from `seed`: the whole sequence is fixed by the seed. */
  function Iterate(seed: bv64, n: nat): bv64
  {
    if n == 0 then seed else Step(Iterate(seed, n - 1))
  }

  class XorshiftGenerator {
    var state: bv64

    /** `XorshiftGenerator::new`: the seed is the state. */
    constructor (seed: bv64)
      ensures state == seed
    {
      state := seed;
    }

    /** `next`: advance the state by one step and return the new state. */
    method Next() returns (r: bv64)
      modifies this
      ensures state == Step(old(state)) && r == state
    {
      var x := state;
      x := XorShl13(x);
      x := XorShr7(x);
      x := XorShl17(x);
      state := x;
      r := x;
    }
  }

  /** Drawing `n` numbers from a fresh generator visits exactly the iterates of the seed. */
  method Draw(seed: bv64, n: nat) returns (values: seq<bv64>)
    ensures |values| == n
    ensures forall i :: 0 <= i < n ==> values[i] == Iterate(seed, i + 1)
  {
    var g := new XorshiftGenerator(seed);
    values := [];
    while |values| < n
      invariant |values| <= n
      invariant g.state == Iterate(seed, |values|)
      invariant forall i :: 0 <= i < |values| ==> values[i] == Iterate(seed, i + 1)
    {
      var v := g.Next();
      values := values + [v];
    }
  }

  /** Zero is a fixed point: a generator seeded with 0 returns 0 forever. */
  lemma ZeroFixed()
    ensures Step(0) == 0
  {
  }

  /** Each of the three xorshift updates loses no information. */
  lemma XorShl13Injective(x: bv64, y: bv64)
    requires XorShl13(x) == XorShl13(y)
    ensures x == y
  {
    XorShl13Zero(x ^ y);
  }

  lemma XorShl13Zero(z: bv64)
    requires XorShl13(z) == 0
    ensures z == 0
  {
  }

  lemma XorShr7Injective(x: bv64, y: bv64)
    requires XorShr7(x) == XorShr7(y)
    ensures x == y
  {
    XorShr7Zero(x ^ y);
  }

  lemma XorShr7Zero(z: bv64)
    requires XorShr7(z) == 0
    ensures z == 0
  {
  }

  lemma XorShl17Injective(x: bv64, y: bv64)
    requires XorShl17(x) == XorShl17(y)
    ensures x == y
  {
    XorShl17Zero(x ^ y);
  }

  lemma XorShl17Zero(z: bv64)
    requires XorShl17(z) == 0
    ensures z == 0
  {
  }

  /** Distinct states step to distinct states. */
  lemma StepInjective(x: bv64, y: bv64)
    requires Step(x) == Step(y)
    ensures x == y
  {
    XorShl17Injective(XorShr7(XorShl13(x)), XorShr7(XorShl13(y)));
    XorShr7Injective(XorShl13(x), XorShl13(y));
    XorShl13Injective(x, y);
  }

  /** A non-zero seed never reaches the zero state, so the generator never gets stuck. */
  lemma NonZeroForever(seed: bv64, n: nat)
    requires seed != 0
    ensures Iterate(seed, n) != 0
  {
    if n > 0 {
      NonZeroForever(seed, n - 1);
      if Iterate(seed, n) == 0 {
        StepInjective(Iterate(seed, n - 1), 0);
      }
    }
  }
}
