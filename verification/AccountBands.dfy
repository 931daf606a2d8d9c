// How many servers an account gets: four bands chosen by one sample, and a place
// inside the band chosen by another.
module AccountBands {
  import opened Arithmetic
  import opened Sampler

  type Modulus = x: int | x > 0 witness 1

  datatype Band = Band(minimum: Modulus, maximum: Modulus)

  function TierBand(tier: nat): Band {
    if tier < 5500 then Band(1, 2000)
    else if tier < 8400 then Band(2001, 7500)
    else if tier < 9600 then Band(7501, 20000)
    else Band(20001, 50000)
  }

  function AccountServerCount(ordinal: nat): nat {
    if ordinal < 8 then 16
    else
      var band := TierBand(Sample64(ordinal, 0) % 10000);
      band.minimum + Sample64(ordinal, 1) % (band.maximum - band.minimum + 1)
  }

  // The band of a count, without the sample that chose it.
  function BandOfCount(count: nat): Band {
    if count <= 2000 then Band(1, 2000)
    else if count <= 7500 then Band(2001, 7500)
    else if count <= 20000 then Band(7501, 20000)
    else Band(20001, 50000)
  }

  // Every count lies inside the band its tier chose, so the count alone tells the
  // band for every account past the first eight.
  lemma {:induction false} CountTellsBand(ordinal: nat)
    ensures 1 <= AccountServerCount(ordinal) <= 50000
    ensures ordinal >= 8 ==> BandOfCount(AccountServerCount(ordinal)) == TierBand(Sample64(ordinal, 0) % 10000)
  {
    hide Sample64;
    if ordinal >= 8 {
      var band := TierBand(Sample64(ordinal, 0) % 10000);
      var place := Sample64(ordinal, 1) % (band.maximum - band.minimum + 1);
      assert band.minimum <= band.minimum + place <= band.maximum;
    }
  }

  // ---------- Exact band sizes ----------

  // The mixer inputs whose sample selects a band.
  ghost function InputsOfBand(band: Band): set<nat> {
    set v: nat | 0 <= v < TWO64 && TierBand(Mix64(v) % 10000) == band
  }

  // The numbers below n whose remainder modulo m is lo up to hi.
  ghost function Residues(n: nat, m: Modulus, lo: nat, hi: nat): set<int> {
    set w | 0 <= w < n && lo <= w % m < hi
  }

  function Clamp(x: int, limit: nat): nat {
    if x < 0 then 0 else if x > limit then limit else x
  }

  // One full cycle of m contributes hi - lo, and the last cycle what it reaches.
  function ResidueCount(n: nat, m: Modulus, lo: nat, hi: nat): nat
    requires lo <= hi
  {
    n / m * (hi - lo) + Clamp(n % m - lo, hi - lo)
  }

  lemma {:induction false} ResidueCountStep(n: nat, m: Modulus, lo: nat, hi: nat)
    requires lo <= hi <= m
    ensures ResidueCount(n + 1, m, lo, hi)
         == ResidueCount(n, m, lo, hi) + (if lo <= n % m < hi then 1 else 0)
  {
    NextRemainder(n, m);
    var q, r, w := n / m, n % m, hi - lo;
    if r == m - 1 {
      assert ResidueCount(n + 1, m, lo, hi) == (q + 1) * w + Clamp(0 - lo, w);
      assert (q + 1) * w == q * w + w;
    } else {
      assert ResidueCount(n + 1, m, lo, hi) == q * w + Clamp(r + 1 - lo, w);
    }
  }

  lemma {:induction false} NextRemainder(n: nat, m: Modulus)
    ensures n % m == m - 1 ==> (n + 1) / m == n / m + 1 && (n + 1) % m == 0
    ensures n % m != m - 1 ==> (n + 1) / m == n / m && (n + 1) % m == n % m + 1
  {
    var q, r := n / m, n % m;
    if r == m - 1 {
      assert n + 1 == (q + 1) * m + 0;
      Division(n + 1, q + 1, 0, m);
    } else {
      assert n + 1 == q * m + (r + 1);
      Division(n + 1, q, r + 1, m);
    }
  }

  lemma {:induction false} CountResidues(n: nat, m: Modulus, lo: nat, hi: nat)
    requires lo <= hi <= m
    ensures |Residues(n, m, lo, hi)| == ResidueCount(n, m, lo, hi)
  {
    hide ResidueCount;
    if n == 0 {
      assert Residues(0, m, lo, hi) == {};
      assert ResidueCount(0, m, lo, hi) == 0 by {
        ResidueCountOfZero(m, lo, hi);
      }
    } else {
      var before := Residues(n - 1, m, lo, hi);
      CountResidues(n - 1, m, lo, hi);
      ResidueCountStep(n - 1, m, lo, hi);
      if lo <= (n - 1) % m < hi {
        assert Residues(n, m, lo, hi) == before + {n - 1};
      } else {
        assert Residues(n, m, lo, hi) == before;
      }
    }
  }

  lemma {:induction false} ResidueCountOfZero(m: Modulus, lo: nat, hi: nat)
    requires lo <= hi
    ensures ResidueCount(0, m, lo, hi) == 0
  {
    Division(0, 0, 0, m);
  }

  predicate Selects(v: nat, m: Modulus, lo: nat, hi: nat) { lo <= Mix64(v) % m < hi }

  // The inputs below n whose mix has such a remainder, and what the mixer makes of them.
  ghost function InputsBelow(n: nat, m: Modulus, lo: nat, hi: nat): set<nat> {
    set v: nat | 0 <= v < n && Selects(v, m, lo, hi)
  }

  ghost function Mixed(n: nat, m: Modulus, lo: nat, hi: nat): set<Word> {
    set v: nat | 0 <= v < n && Selects(v, m, lo, hi) :: Mix64(v)
  }

  lemma {:induction false} MixIsInjective(u: nat, v: nat)
    requires u < v < TWO64
    ensures Mix64(u) != Mix64(v)
  {
    hide Mix64, Unmix64;
    UnmixOfMix(u);
    UnmixOfMix(v);
  }

  lemma {:induction false} MixedStep(v: nat, m: Modulus, lo: nat, hi: nat)
    requires v < TWO64
    ensures !Selects(v, m, lo, hi) ==> Mixed(v + 1, m, lo, hi) == Mixed(v, m, lo, hi)
    ensures Selects(v, m, lo, hi) ==> Mixed(v + 1, m, lo, hi) == Mixed(v, m, lo, hi) + {Mix64(v)} && Mix64(v) !in Mixed(v, m, lo, hi)
  {
    hide Mix64, Selects;
    forall u: nat | u < v ensures Mix64(u) != Mix64(v) {
      MixIsInjective(u, v);
    }
  }

  lemma {:induction false} InputsStep(v: nat, m: Modulus, lo: nat, hi: nat)
    ensures !Selects(v, m, lo, hi) ==> InputsBelow(v + 1, m, lo, hi) == InputsBelow(v, m, lo, hi)
    ensures Selects(v, m, lo, hi)
            ==> InputsBelow(v + 1, m, lo, hi) == InputsBelow(v, m, lo, hi) + {v} && v !in InputsBelow(v, m, lo, hi)
  {
    hide Mix64, Selects;
  }

  lemma {:induction false} NothingBelowZero(m: Modulus, lo: nat, hi: nat)
    ensures Mixed(0, m, lo, hi) == {} && InputsBelow(0, m, lo, hi) == {}
  {
  }

  // No two inputs mix to the same word, so mixing keeps the number of them.
  lemma {:induction false} MixKeepsSize(n: nat, m: Modulus, lo: nat, hi: nat)
    requires n <= TWO64
    ensures |Mixed(n, m, lo, hi)| == |InputsBelow(n, m, lo, hi)|
  {
    hide Mix64, Selects, Mixed, InputsBelow;
    if n == 0 {
      NothingBelowZero(m, lo, hi);
    } else {
      MixKeepsSize(n - 1, m, lo, hi);
      MixedStep(n - 1, m, lo, hi);
      InputsStep(n - 1, m, lo, hi);
    }
  }

  // Every word is the mix of some input.
  lemma {:induction false} MixedIsResidues(m: Modulus, lo: nat, hi: nat)
    ensures Mixed(TWO64, m, lo, hi) == Residues(TWO64, m, lo, hi)
  {
    hide Mix64, Unmix64;
    forall w | w in Residues(TWO64, m, lo, hi) ensures w in Mixed(TWO64, m, lo, hi) {
      MixOfUnmix(w);
      var v := Unmix64(w);
      assert 0 <= v < TWO64 && Selects(v, m, lo, hi) && Mix64(v) == w;
    }
  }

  lemma {:induction false} InputsMatchResidues(m: Modulus, lo: nat, hi: nat)
    requires lo <= hi <= m
    ensures |InputsBelow(TWO64, m, lo, hi)| == ResidueCount(TWO64, m, lo, hi)
  {
    hide Mix64, Unmix64, ResidueCount;
    MixKeepsSize(TWO64, m, lo, hi);
    MixedIsResidues(m, lo, hi);
    CountResidues(TWO64, m, lo, hi);
  }

  // Of the 2^64 mixer inputs, exactly this many select each of the four bands.
  lemma {:induction false} BandSizes()
    ensures var q := 0x1_0000_0000_0000_0000 / 10000;
            && q == 1844674407370955
            && |InputsOfBand(Band(1, 2000))| == 5500 * q + 1616
            && |InputsOfBand(Band(2001, 7500))| == 2900 * q
            && |InputsOfBand(Band(7501, 20000))| == 1200 * q
            && |InputsOfBand(Band(20001, 50000))| == 400 * q
  {
    hide Mix64;
    InputsMatchResidues(10000, 0, 5500);
    InputsMatchResidues(10000, 5500, 8400);
    InputsMatchResidues(10000, 8400, 9600);
    InputsMatchResidues(10000, 9600, 10000);
    assert InputsOfBand(Band(1, 2000)) == InputsBelow(TWO64, 10000, 0, 5500);
    assert InputsOfBand(Band(2001, 7500)) == InputsBelow(TWO64, 10000, 5500, 8400);
    assert InputsOfBand(Band(7501, 20000)) == InputsBelow(TWO64, 10000, 8400, 9600);
    assert InputsOfBand(Band(20001, 50000)) == InputsBelow(TWO64, 10000, 9600, 10000);
  }

  // ---------- Places inside a band ----------

  // Every place of a band, whatever its width, is chosen by as many mixer inputs as any
  // other, or by one more.
  lemma {:induction false} PlaceSizes(width: Modulus, place: nat)
    requires place < width
    ensures |set v: nat | 0 <= v < TWO64 && Mix64(v) % width == place|
         == TWO64 / width + if place < TWO64 % width then 1 else 0
  {
    hide Mix64;
    InputsMatchResidues(width, place, place + 1);
    assert (set v: nat | 0 <= v < TWO64 && Mix64(v) % width == place) == InputsBelow(TWO64, width, place, place + 1);
  }

  // The first eight accounts have 16 servers. Of every other account, the count tells
  // the band and the second sample its place in the band.
  lemma {:induction false} CountTellsPlace(ordinal: nat)
    ensures ordinal < 8 ==> AccountServerCount(ordinal) == 16
    ensures ordinal >= 8 ==>
              var count := AccountServerCount(ordinal);
              var band := BandOfCount(count);
              count - band.minimum == Sample64(ordinal, 1) % (band.maximum - band.minimum + 1)
  {
    hide Sample64;
    CountTellsBand(ordinal);
  }
}
