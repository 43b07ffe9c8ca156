/**
 * Retry backoff: an int64 shift that may wrap, a cap, and +/- 25% jitter.
 * All durations are in nanoseconds.
 */
module Backoff {
  import opened Arithmetic

  const DEFAULT_INTERVAL := 5_000_000_000
  const MAX_BACKOFF := 300_000_000_000
  const TWO_63 := 0x8000_0000_0000_0000
  const TWO_64 := 0x1_0000_0000_0000_0000

  function Pow2(k: nat): (p: nat)
    ensures p >= 1
  {
    if k == 0 then 1 else 2 * Pow2(k - 1)
  }

  /** The int64 that keeps the low 64 bits of `x`. */
  function Wrap(x: int): (r: int)
    ensures -TWO_63 <= r < TWO_63
  {
    var u := x % TWO_64;
    if u < TWO_63 then u else u - TWO_64
  }

  /** interval << k on int64: one bit at a time, each time keeping the low 64 bits. */
  function ShiftLeft(interval: int, k: nat): int {
    if k == 0 then Wrap(interval) else Wrap(2 * ShiftLeft(interval, k - 1))
  }

  /** The configured interval, or the default when none is set. */
  function EffectiveInterval(configured: int): (r: int)
    ensures r > 0
  {
    if configured <= 0 then DEFAULT_INTERVAL else configured
  }

  function Cap(b: int): int {
    if b <= 0 || b > MAX_BACKOFF then MAX_BACKOFF else b
  }

  function Backoff(interval: int, k: nat): int {
    Cap(ShiftLeft(interval, k))
  }

  /** The argument of rand.Int63n, which panics unless it is positive. */
  function JitterBound(backoff: int): int {
    backoff / 2
  }

  function Sleep(backoff: int, jitter: int): int {
    backoff - backoff / 4 + jitter
  }

  function Min(a: int, b: int): int {
    if a < b then a else b
  }

  /** The documented law: the interval doubled k times, capped. */
  function Documented(interval: int, k: nat): int {
    Min(interval * Pow2(k), 300_000_000_000)
  }

  lemma WrapTwice(x: int)
    ensures Wrap(2 * Wrap(x)) == Wrap(2 * x)
  {
    var q := (x - Wrap(x)) / TWO_64;
    assert x == Wrap(x) + q * TWO_64;
    ModuloShift(2 * Wrap(x), 2 * q);
  }

  lemma ModuloShift(x: int, q: int)
    ensures (x + q * TWO_64) % TWO_64 == x % TWO_64
  {
  }

  /** Shifting is multiplying by a power of two, modulo 2^64 and read as signed. */
  lemma {:induction false} ShiftIsProduct(interval: int, k: nat)
    ensures ShiftLeft(interval, k) == Wrap(interval * Pow2(k))
  {
    if k > 0 {
      ShiftIsProduct(interval, k - 1);
      WrapTwice(interval * Pow2(k - 1));
      Double(interval, Pow2(k - 1));
    }
  }

  lemma EvenShift(interval: int, k: nat)
    requires k >= 1
    ensures ShiftLeft(interval, k) % 2 == 0
  {
    EvenModulo(ShiftLeft(interval, k - 1));
  }

  lemma EvenModulo(y: int)
    ensures (2 * y) % TWO_64 % 2 == 0
  {
    var q := 2 * y / TWO_64;
    assert (2 * y) % TWO_64 == 2 * (y - q * TWO_63);
  }

  lemma Pow2Values()
    ensures Pow2(9) == 512
    ensures Pow2(26) == 0x400_0000
    ensures Pow2(33) == 0x2_0000_0000
    ensures Pow2(34) == 0x4_0000_0000
    ensures Pow2(37) == 0x20_0000_0000
    ensures Pow2(38) == 0x40_0000_0000
    ensures Pow2(39) == 0x80_0000_0000
  {
    assert Pow2(9) == 512;
    assert Pow2(11) == 2048;
    Pow2Add(11, 11);
    assert Pow2(22) == 2048 * 2048;
    Pow2Add(22, 11);
    assert Pow2(33) == 2048 * 2048 * 2048;
    Pow2Add(33, 5);
    assert Pow2(5) == 32;
  }

  /** Every backoff is positive and capped, and the jitter has room except on the first retry at 1ns. */
  lemma BackoffInRange(interval: int, k: nat)
    requires 1 <= interval < TWO_63
    ensures 0 < Backoff(interval, k) <= 300_000_000_000
    ensures JitterBound(Backoff(interval, k)) > 0 <==> interval >= 2 || k >= 1
  {
    if k >= 1 {
      EvenShift(interval, k);
    }
  }

  /** Int63n is safe on every attempt exactly when the interval is at least 2ns. */
  lemma JitterSafeIff(interval: int)
    requires 1 <= interval < TWO_63
    ensures (forall k: nat :: JitterBound(Backoff(interval, k)) > 0) <==> interval >= 2
  {
    forall k: nat ensures JitterBound(Backoff(interval, k)) > 0 <==> interval >= 2 || k >= 1 {
      BackoffInRange(interval, k);
    }
    assert interval == 1 ==> !(JitterBound(Backoff(interval, 0)) > 0);
  }

  /** The sleep stays within a quarter of the backoff, on either side. */
  lemma SleepWithinQuarter(backoff: int, jitter: int)
    requires backoff > 0 && 0 <= jitter < JitterBound(backoff)
    ensures 3 * backoff <= 4 * Sleep(backoff, jitter) < 5 * backoff
  {
    var q, r := backoff / 4, backoff % 4;
    assert backoff == 4 * q + r;
    assert backoff / 2 == 2 * q + r / 2;
  }

  /** The product fits int64, or wraps to something the cap catches. */
  predicate Harmless(interval: int, k: nat) {
    interval * Pow2(k) < TWO_63 || ShiftLeft(interval, k) <= 0 || ShiftLeft(interval, k) >= MAX_BACKOFF
  }

  /** The documented law holds exactly when the product fits int64, or wraps to something the cap catches. */
  lemma DocumentedIff(interval: int, k: nat)
    requires 1 <= interval < TWO_63
    ensures Backoff(interval, k) == Documented(interval, k)
       <==> Harmless(interval, k)
  {
    ShiftIsProduct(interval, k);
    MulMono(interval, 1, Pow2(k));
    CapIff(interval * Pow2(k), ShiftLeft(interval, k));
  }

  lemma CapIff(x: int, w: int)
    requires x >= 1 && w == Wrap(x)
    ensures Cap(w) == Min(x, MAX_BACKOFF) <==> x < TWO_63 || w <= 0 || w >= MAX_BACKOFF
  {
    if x < TWO_63 {
      assert x % TWO_64 == x;
    }
  }

  lemma {:induction false} Pow2Add(a: nat, b: nat)
    ensures Pow2(a + b) == Pow2(a) * Pow2(b)
  {
    if a > 0 {
      Pow2Add(a - 1, b);
      assert 2 * Pow2(a - 1) * Pow2(b) == 2 * (Pow2(a - 1) * Pow2(b));
    }
  }

  /** As long as the product fits int64, the backoff never shrinks from one attempt to the next. */
  lemma Nondecreasing(interval: int, j: nat, k: nat)
    requires 1 <= interval && j <= k && interval * Pow2(k) < TWO_63
    ensures Backoff(interval, j) <= Backoff(interval, k)
  {
    Pow2Monotone(j, k);
    MulMono(interval, Pow2(j), Pow2(k));
    MulMono(interval, 1, Pow2(k));
    DocumentedIff(interval, j);
    DocumentedIff(interval, k);
  }

  lemma {:induction false} Pow2Monotone(j: nat, k: nat)
    requires j <= k
    ensures Pow2(j) <= Pow2(k)
  {
    if j < k {
      Pow2Monotone(j, k - 1);
    }
  }

  lemma MultipleOf39(y: int)
    ensures var r := Wrap(y * 0x80_0000_0000); r <= 0 || r >= 0x80_0000_0000
  {
    var m := y % 0x200_0000;
    var q := y / 0x200_0000;
    assert y * 0x80_0000_0000 == q * TWO_64 + m * 0x80_0000_0000;
    assert 0 <= m * 0x80_0000_0000 < TWO_64;
    assert (y * 0x80_0000_0000) % TWO_64 == m * 0x80_0000_0000;
  }

  lemma SmallOddShift(odd: nat, n: nat)
    requires 1 <= odd < 0x400_0000
    ensures var x := odd * Pow2(n); x < TWO_63 || Wrap(x) <= 0 || Wrap(x) >= MAX_BACKOFF
  {
    Pow2Values();
    if n <= 37 {
      Pow2Monotone(n, 37);
      MulMono(odd, Pow2(n), Pow2(37));
    } else if n == 38 {
      HighHalf(odd * Pow2(38));
    } else {
      Pow2Add(n - 39, 39);
      MulAssoc(odd, Pow2(n - 39), Pow2(39));
      MultipleOf39(odd * Pow2(n - 39));
    }
  }

  lemma HighHalf(x: int)
    requires 0 <= x < TWO_64
    ensures x < TWO_63 || Wrap(x) < 0
  {
  }

  /**
   * An interval whose odd part is below 2^26 follows the documented law at every
   * attempt, however far the shift wraps.
   */
  lemma SmallOddPartNeverWrapsBadly(odd: nat, z: nat, k: nat)
    requires 1 <= odd < 0x400_0000 && odd * Pow2(z) < TWO_63
    ensures Backoff(odd * Pow2(z), k) == Documented(odd * Pow2(z), k)
  {
    MulMono(odd, 1, Pow2(z));
    MulAssoc(odd, Pow2(z), Pow2(k));
    Pow2Add(z, k);
    SmallOddShift(odd, z + k);
    ShiftIsProduct(odd * Pow2(z), k);
    DocumentedIff(odd * Pow2(z), k);
  }

  /** 2^26 + 1 nanoseconds wraps to 2^38, below the cap, on the 39th retry. */
  lemma FirstOddPartThatFails()
    ensures Backoff(0x400_0001, 38) == 0x40_0000_0000 < Documented(0x400_0001, 38)
  {
    Pow2Values();
    ShiftIsProduct(0x400_0001, 38);
  }

  predicate Follows(m: nat, z: nat, k: nat) {
    1 <= m && m * Pow2(z) < TWO_63 ==> Backoff(m * Pow2(z), k) == Documented(m * Pow2(z), k)
  }

  /** All intervals m * 2^z with m below a bound follow the law at every attempt iff the bound is at most 2^26 + 1. */
  lemma OddPartIff(bound: nat)
    ensures (forall m: nat, z: nat, k: nat | m < bound :: Follows(m, z, k)) <==> bound <= 0x400_0001
  {
    if bound <= 0x400_0001 {
      forall m: nat, z: nat, k: nat | m < bound ensures Follows(m, z, k) {
        if 1 <= m && m * Pow2(z) < TWO_63 {
          if m < 0x400_0000 {
            SmallOddPartNeverWrapsBadly(m, z, k);
          } else {
            Pow2Values();
            Pow2Add(26, z);
            SmallOddPartNeverWrapsBadly(1, 26 + z, k);
          }
        }
      }
    } else {
      FirstOddPartThatFails();
      assert Pow2(0) == 1;
      assert !Follows(0x400_0001, 0, 38);
    }
  }

  /** An interval follows the documented law at every attempt iff none of the first 39 shifts wraps below the cap. */
  lemma EveryAttemptIff(interval: int)
    requires 1 <= interval < TWO_63
    ensures (forall k: nat :: Backoff(interval, k) == Documented(interval, k))
       <==> forall k | 0 <= k < 39 :: Harmless(interval, k)
  {
    forall k: nat ensures Backoff(interval, k) == Documented(interval, k) <==> k >= 39 || Harmless(interval, k) {
      DocumentedIff(interval, k);
      if k >= 39 {
        LateShift(interval, k);
      }
    }
  }

  lemma LateShift(interval: int, k: nat)
    requires k >= 39
    ensures Harmless(interval, k)
  {
    Pow2Values();
    Pow2Add(k - 39, 39);
    MulAssoc(interval, Pow2(k - 39), Pow2(39));
    MultipleOf39(interval * Pow2(k - 39));
    ShiftIsProduct(interval, k);
  }

  /** In particular the default of five seconds: doubled per attempt, capped at five minutes, for ever. */
  lemma DefaultIntervalExact(k: nat)
    ensures Backoff(5_000_000_000, k) == Documented(5_000_000_000, k)
  {
    Pow2Values();
    SmallOddPartNeverWrapsBadly(9_765_625, 9, k);
  }

  /** An interval of 1.073741825s wraps: the 35th retry falls from five minutes back to about 17 seconds. */
  lemma WrapShortensBackoff()
    ensures Backoff(0x4000_0001, 33) == 300_000_000_000
    ensures Backoff(0x4000_0001, 34) == 17_179_869_184
  {
    Pow2Values();
    ShiftIsProduct(0x4000_0001, 33);
    ShiftIsProduct(0x4000_0001, 34);
  }
}
