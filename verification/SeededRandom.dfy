/** The seeded generator of the calibration fixtures (mulberry32): a 32-bit
    counter that advances by an odd constant, and an output function of it. */
module SeededRandom {

  const MODULUS := 0x1_0000_0000
  const INCREMENT := 0x6d2b79f5

  /** The inverse of the increment modulo 2^32; it exists because the increment is odd. */
  const INCREMENT_INVERSE := 3696798301

  const INVERSE_QUOTIENT := 1576479847

  type Word = w: int | 0 <= w < MODULUS

  function ToUint32(n: int): Word { n % MODULUS }

  /** The mixing of one state into 32 output bits. */
  function Mix(a: bv32): bv32 {
    var t := (a ^ (a >> 15)) * (1 | a);
    var u := (t + (t ^ (t >> 7)) * (61 | t)) ^ t;
    u ^ (u >> 14)
  }

  /** The outputs of some states; the third is the first output for the seed 0. */
  lemma {:induction false} KnownOutputs()
    ensures Mix(0) == 0 && Mix(1) == 0x3f && Mix(0x6d2b79f5) == 0x4434b462
    ensures Mix(0x80000000) == 0xbf3d86fd && Mix(0xdeadbeef) == 0x5f828c49 && Mix(0xffffffff) == 0x087ed5fb
  {
  }

  /** The final division by 2^32. */
  function ToUnit(bits: bv32): (r: real)
    ensures 0.0 <= r < 1.0
  {
    (bits as int) as real / 4294967296.0
  }

  function Output(a: Word): (r: real)
    ensures 0.0 <= r < 1.0
  {
    ToUnit(Mix(a as bv32))
  }

  /** The captured state and the function that advances it. */
  class Generator {
    var a: Word
    ghost var seed: int
    ghost var calls: nat

    ghost predicate Valid()
      reads this
    {
      a == StateAfter(seed, calls)
    }

    constructor (seed: int)
      ensures Valid() && this.seed == seed && calls == 0
    {
      a := ToUint32(seed);
      this.seed, calls := seed, 0;
    }

    method Next() returns (r: real)
      requires Valid()
      modifies this
      ensures Valid() && seed == old(seed) && calls == old(calls) + 1
      ensures r == Output(a) && 0.0 <= r < 1.0
    {
      Advance(seed, calls);
      a := ToUint32(a + INCREMENT);
      calls := calls + 1;
      r := Output(a);
    }
  }

  /** The state after `k` calls. */
  function StateAfter(seed: int, k: int): Word { ToUint32(seed + k * INCREMENT) }

  // ---------- residues modulo 2^32 ----------

  lemma {:induction false} ResidueUnique(x: int, y: int, q: int)
    requires x == y + q * MODULUS
    ensures ToUint32(x) == ToUint32(y)
  {
  }

  lemma {:induction false} Advance(seed: int, k: int)
    ensures StateAfter(seed, k + 1) == ToUint32(StateAfter(seed, k) + INCREMENT)
  {
    var x := seed + k * INCREMENT;
    assert seed + (k + 1) * INCREMENT == x + INCREMENT;
    ResidueUnique(x + INCREMENT, x % MODULUS + INCREMENT, x / MODULUS);
  }

  lemma {:induction false} CongruentDifference(x: int, y: int)
    requires ToUint32(x) == ToUint32(y)
    ensures x - y == (x / MODULUS - y / MODULUS) * MODULUS
  {
  }

  /** A multiple of the increment is a multiple of 2^32 only when its factor is. */
  lemma {:induction false} IncrementCancels(d: int, q: int)
    requires d * INCREMENT == q * MODULUS
    ensures d == (q * INCREMENT_INVERSE - d * INVERSE_QUOTIENT) * MODULUS
  {
    assert INCREMENT * INCREMENT_INVERSE == 1 + INVERSE_QUOTIENT * MODULUS;
    assert d * (INCREMENT * INCREMENT_INVERSE) == (d * INCREMENT) * INCREMENT_INVERSE;
  }

  // ---------- the period ----------

  lemma {:induction false} EqualStates(seed: int, j: int, k: int)
    requires StateAfter(seed, j) == StateAfter(seed, k)
    ensures (k - j) % MODULUS == 0
  {
    var x, y := seed + k * INCREMENT, seed + j * INCREMENT;
    CongruentDifference(x, y);
    var q := x / MODULUS - y / MODULUS;
    assert (k - j) * INCREMENT == q * MODULUS;
    IncrementCancels(k - j, q);
    MultipleIsZero(q * INCREMENT_INVERSE - (k - j) * INVERSE_QUOTIENT);
  }

  lemma {:induction false} EqualCounts(seed: int, j: int, k: int)
    requires (k - j) % MODULUS == 0
    ensures StateAfter(seed, j) == StateAfter(seed, k)
  {
    var q := (k - j) / MODULUS;
    assert k == j + q * MODULUS;
    assert k * INCREMENT == j * INCREMENT + (q * INCREMENT) * MODULUS;
    ResidueUnique(seed + k * INCREMENT, seed + j * INCREMENT, q * INCREMENT);
  }

  /** The states of two call counts agree exactly when the counts differ by a
      multiple of 2^32: the first 2^32 states are pairwise distinct, and then
      the sequence repeats. */
  lemma {:induction false} StatesAgree(seed: int, j: int, k: int)
    ensures StateAfter(seed, j) == StateAfter(seed, k) <==> (k - j) % MODULUS == 0
  {
    if StateAfter(seed, j) == StateAfter(seed, k) {
      EqualStates(seed, j, k);
    }
    if (k - j) % MODULUS == 0 {
      EqualCounts(seed, j, k);
    }
  }

  /** The number of calls from a seed to a given state. */
  function CallsTo(seed: int, w: Word): Word { ToUint32((w - seed) * INCREMENT_INVERSE) }

  /** Full period: every 32-bit state is reached once in the first 2^32 calls. */
  lemma {:induction false} EveryStateReached(seed: int, w: Word)
    ensures StateAfter(seed, CallsTo(seed, w)) == w
    ensures forall k: Word :: StateAfter(seed, k) == w ==> k == CallsTo(seed, w)
  {
    var d := w - seed;
    var raw := d * INCREMENT_INVERSE;
    assert INCREMENT * INCREMENT_INVERSE == 1 + INVERSE_QUOTIENT * MODULUS;
    assert raw * INCREMENT == d * (INCREMENT * INCREMENT_INVERSE) == d + (d * INVERSE_QUOTIENT) * MODULUS;
    ResidueUnique(seed + raw * INCREMENT, w, d * INVERSE_QUOTIENT);
    StatesAgree(seed, raw, CallsTo(seed, w));
    assert (CallsTo(seed, w) - raw) == -(raw / MODULUS) * MODULUS;
    MultipleIsZero(-(raw / MODULUS));
    forall k: Word | StateAfter(seed, k) == w ensures k == CallsTo(seed, w) {
      StatesAgree(seed, k, CallsTo(seed, w));
    }
  }

  lemma {:induction false} MultipleIsZero(q: int)
    ensures (q * MODULUS) % MODULUS == 0
  {
  }
}
