// The 64-bit sampler of the fixture generator, over unbounded integers as in its
// source: masking with 2^64 - 1 is the remainder modulo 2^64.
module Sampler {
  import opened Bits

  const TWO64: int := 0x1_0000_0000_0000_0000
  const SEED := 20260813
  const ORDINAL_MULTIPLIER := 104729
  const STREAM_MULTIPLIER := 0x9e3779b97f4a7c15
  const FIRST_MULTIPLIER := 0xbf58476d1ce4e5b9
  const SECOND_MULTIPLIER := 0x94d049bb133111eb

  type Word = x: int | 0 <= x < 0x1_0000_0000_0000_0000

  type SafeInt = x: int | 0 <= x < 0x20_0000_0000_0000

  function Times(x: Word, multiplier: nat): Word {
    x * multiplier % TWO64
  }

  function Shifted(x: Word, k: nat): (r: Word) {
    WordShift(x, k);
    XorShift(x, k)
  }

  function Mix64(value: nat): Word {
    var start: Word := value % TWO64;
    var first := Times(Shifted(start, 30), FIRST_MULTIPLIER);
    var second := Times(Shifted(first, 27), SECOND_MULTIPLIER);
    Shifted(second, 31)
  }

  // ---------- The inverse ----------

  // Inverses modulo 2^64 of the two odd multipliers.
  const FIRST_INVERSE := 0x96de1b173f119089
  const SECOND_INVERSE := 0x319642b2d24d8ec3

  function Unshifted(x: Word, k: nat): (r: Word) {
    WordShift(x, k);
    UnXorShift(x, k)
  }

  function Unmix64(mixed: Word): Word {
    var second := Times(Unshifted(mixed, 31), SECOND_INVERSE);
    var first := Times(Unshifted(second, 27), FIRST_INVERSE);
    Unshifted(first, 30)
  }

  lemma {:induction false} Pow2Of2()
    ensures Pow2(2) == 4
  {
    assert Pow2(1) == 2;
  }

  lemma {:induction false} Pow2Of64()
    ensures Pow2(64) == TWO64
  {
    hide Pow2;
    Pow2Of2();
    Pow2Sum(2, 2);
    Pow2Sum(4, 4);
    Pow2Sum(8, 8);
    Pow2Sum(16, 16);
    Pow2Sum(32, 32);
  }

  lemma {:induction false} Pow2Sum(j: nat, k: nat)
    ensures Pow2(j + k) == Pow2(j) * Pow2(k)
  {
    if j > 0 {
      Pow2Sum(j - 1, k);
    }
  }

  lemma {:induction false} WordShift(x: Word, k: nat)
    ensures XorShift(x, k) < TWO64 && UnXorShift(x, k) < TWO64
  {
    hide Pow2, XorShift, UnXorShift;
    Pow2Of64();
    XorShiftBelow(x, k, 64);
  }

  lemma {:induction false} RemainderIs(n: int, x: Word, t: int)
    requires n == x + TWO64 * t
    ensures n % TWO64 == x
  {
  }

  // Multiplying by two factors whose product is 1 modulo 2^64 changes nothing.
  lemma {:induction false} TimesInverse(x: Word, c: nat, inverse: nat, k: nat)
    requires c * inverse == 1 + k * TWO64
    ensures Times(Times(x, c), inverse) == x
  {
    var q, r := x * c / TWO64, x * c % TWO64;
    assert r == x * c - TWO64 * q;
    calc {
      r * inverse;
      (x * c - TWO64 * q) * inverse;
      x * c * inverse - TWO64 * q * inverse;
      { assert x * c * inverse == x * (c * inverse); }
      x * (1 + k * TWO64) - TWO64 * q * inverse;
      { assert x * (1 + k * TWO64) == x + TWO64 * (x * k);
        assert TWO64 * q * inverse == TWO64 * (q * inverse); }
      x + TWO64 * (x * k - q * inverse);
    }
    RemainderIs(r * inverse, x, x * k - q * inverse);
  }

  lemma {:induction false} UnshiftedOfShifted(x: Word, k: nat)
    requires 30 <= k || k == 27
    ensures Unshifted(Shifted(x, k), k) == x
    ensures Shifted(Unshifted(x, k), k) == x
  {
    hide Pow2, XorShift, UnXorShift;
    Pow2Of64();
    UnXorShiftOfXorShift(x, k, 64);
    XorShiftOfUnXorShift(x, k, 64);
  }

  // The mixer permutes the 64-bit words, and Unmix64 is its inverse.
  lemma {:induction false} UnmixOfMix(value: nat)
    ensures Unmix64(Mix64(value)) == value % TWO64
  {
    hide Shifted, Unshifted, Times;
    var start: Word := value % TWO64;
    var first := Times(Shifted(start, 30), FIRST_MULTIPLIER);
    var second := Times(Shifted(first, 27), SECOND_MULTIPLIER);
    UnshiftedOfShifted(second, 31);
    TimesInverse(Shifted(first, 27), SECOND_MULTIPLIER, SECOND_INVERSE, 0x1cd336eda85f1453);
    UnshiftedOfShifted(first, 27);
    TimesInverse(Shifted(start, 30), FIRST_MULTIPLIER, FIRST_INVERSE, 0x70c3bca78f27f46c);
    UnshiftedOfShifted(start, 30);
  }

  lemma {:induction false} MixOfUnmix(mixed: Word)
    ensures Mix64(Unmix64(mixed)) == mixed
  {
    hide Shifted, Unshifted, Times;
    var second := Times(Unshifted(mixed, 31), SECOND_INVERSE);
    var first := Times(Unshifted(second, 27), FIRST_INVERSE);
    assert Unmix64(mixed) % TWO64 == Unmix64(mixed);
    UnshiftedOfShifted(first, 30);
    TimesInverse(Unshifted(second, 27), FIRST_INVERSE, FIRST_MULTIPLIER, 0x70c3bca78f27f46c);
    UnshiftedOfShifted(second, 27);
    TimesInverse(Unshifted(mixed, 31), SECOND_INVERSE, SECOND_MULTIPLIER, 0x1cd336eda85f1453);
    UnshiftedOfShifted(mixed, 31);
  }

  // ---------- Samples ----------

  function SampleInput(ordinal: nat, stream: nat): nat {
    SEED + ordinal * ORDINAL_MULTIPLIER + stream * STREAM_MULTIPLIER
  }

  function Sample64(ordinal: nat, stream: nat): Word {
    Mix64(SampleInput(ordinal, stream))
  }

  // The mixer input of the first sample, and what the next account and the next stream
  // add to it.
  lemma {:induction false} SampleInputSteps(o: nat, s: nat)
    ensures SampleInput(0, 0) == 20260813
    ensures SampleInput(o + 1, s) - SampleInput(o, s) == 104729
    ensures SampleInput(o, s + 1) - SampleInput(o, s) == 11400714819323198485
    ensures Sample64(o, s) == Mix64(SampleInput(o, s))
  {
    hide Mix64;
  }

  // The inverse of the ordinal multiplier, and the distance it turns the stream
  // constant into. That distance and its complement both exceed every safe integer.
  const ORDINAL_INVERSE := 0xce8e9a059b82b329
  const STREAM_DISTANCE := 0x4602fe13315a8e5d

  lemma {:induction false} SampleInputsDiffer(o: SafeInt, s: nat, o': SafeInt, s': nat)
    requires s <= 1 && s' <= 1
    requires SampleInput(o, s) % TWO64 == SampleInput(o', s') % TWO64
    ensures o == o' && s == s'
  {
    var n, n' := SampleInput(o, s), SampleInput(o', s');
    var t := n / TWO64 - n' / TWO64;
    assert n - n' == TWO64 * t;
    var d, e := o - o', s - s';
    assert d * ORDINAL_MULTIPLIER + e * STREAM_MULTIPLIER == TWO64 * t;
    var u := t * ORDINAL_INVERSE - d * 0x14a16 - e * 0x7fa8c5e99fbddff5;
    assert d + e * STREAM_DISTANCE == TWO64 * u by {
      assert ORDINAL_MULTIPLIER * ORDINAL_INVERSE == 1 + TWO64 * 0x14a16;
      assert STREAM_MULTIPLIER * ORDINAL_INVERSE == STREAM_DISTANCE + TWO64 * 0x7fa8c5e99fbddff5;
    }
    assert -1 <= e <= 1;
    assert -0x20_0000_0000_0000 < d < 0x20_0000_0000_0000;
  }

  // Over every ordinal a JavaScript number can hold exactly and both streams, no
  // two samples are equal.
  lemma {:induction false} SamplesAreDistinct(o: SafeInt, s: nat, o': SafeInt, s': nat)
    requires s <= 1 && s' <= 1
    ensures Sample64(o, s) == Sample64(o', s') <==> o == o' && s == s'
  {
    hide Mix64;
    UnmixOfMix(SampleInput(o, s));
    UnmixOfMix(SampleInput(o', s'));
    if Sample64(o, s) == Sample64(o', s') {
      SampleInputsDiffer(o, s, o', s');
    }
  }
}
