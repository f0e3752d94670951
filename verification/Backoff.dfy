/** The retry delay of a transient failure, in int64 nanoseconds. */
module Backoff {
  import opened Arithmetic

  const CAP: int := 5_000_000_000
  const TWO_63: int := 0x8000_0000_0000_0000
  const TWO_64: int := 0x1_0000_0000_0000_0000

  newtype Int64 = x: int | -0x8000_0000_0000_0000 <= x < 0x8000_0000_0000_0000

  /** Two's complement wrap-around. */
  function Wrap(x: int): Int64 {
    var low := x % TWO_64;
    (if low < TWO_63 then low else low - TWO_64) as Int64
  }

  /** The shift of a signed 64-bit word; a count past the width gives 0. */
  function ShiftLeft(x: Int64, n: nat): Int64 {
    if n >= 64 then 0 else Wrap(x as int * Pow2(n))
  }

  function TransientBackoff(base: Int64, attempt: int): (d: Int64)
    ensures 0 < d as int <= CAP
  {
    var d := ShiftLeft(base, if attempt < 1 then 0 else attempt - 1);
    if d as int > CAP || d <= 0 then CAP as Int64 else d
  }

  /** What the delay stands for: base doubled per attempt, capped at 5s. */
  function Ideal(base: int, attempt: int): int
    requires attempt >= 1
  {
    if base * Pow2(attempt - 1) > 5_000_000_000 then 5_000_000_000 else base * Pow2(attempt - 1)
  }

  /** The doubled base overflows the word and what is left of it lands below the cap. */
  predicate Aliased(base: int, attempt: int)
    requires attempt >= 1
  {
    var n := attempt - 1;
    n < 64 && base >= Pow2(64 - n) && 0 < LeftOver(base, n) < CAP
  }

  /** What a shift by n leaves of a base too wide for it. */
  function LeftOver(base: int, n: nat): int
    requires n < 64
  {
    base % Pow2(64 - n) * Pow2(n)
  }

  lemma Pow2Values()
    ensures Pow2(32) == 0x1_0000_0000 && Pow2(33) == 0x2_0000_0000 && Pow2(64) == TWO_64
  {
    assert Pow2(8) == 0x100;
    Pow2Adds(8, 8);
    Pow2Adds(16, 16);
    Pow2Adds(32, 1);
    Pow2Adds(32, 32);
  }

  lemma ScaleBound(m: int, q: int, p: int)
    requires 0 <= m < q && p > 0
    ensures 0 <= m * p < q * p
  {
  }

  /** What is left of base * p in a word of p * q. */
  lemma ScaledMod(base: int, p: int, q: int)
    requires p > 0 && q > 0
    ensures p * q > 0 && base * p % (p * q) == base % q * p
  {
    var k, m := base / q, base % q;
    assert base == k * q + m;
    ScaleBound(m, q, p);
    calc {
      base * p;
      (k * q + m) * p;
      k * q * p + m * p;
      k * (p * q) + m * p;
    }
    assert q * p == p * q;
    ModUnique(base * p, k, m * p, p * q);
  }

  lemma ProductBound(base: int, p: int, q: int)
    requires p > 0 && q > 0
    ensures base >= q ==> base * p >= p * q
    ensures base < q ==> base * p < p * q
  {
    if base >= q { assert (base - q) * p >= 0; } else { assert (q - base) * p > 0; }
  }

  lemma WordOf(base: int, n: nat)
    requires base > 0 && n < 64
    ensures base < Pow2(64 - n) ==> Pow2(n) <= base * Pow2(n) < TWO_64
    ensures base >= Pow2(64 - n) ==> base * Pow2(n) >= TWO_64
    ensures base * Pow2(n) % TWO_64 == LeftOver(base, n)
  {
    Pow2Values();
    Pow2Adds(n, 64 - n);
    WordOfFactors(base, Pow2(n), Pow2(64 - n));
  }

  lemma WordOfFactors(base: int, p: int, q: int)
    requires base > 0 && p > 0 && q > 0
    ensures p * q > 0
    ensures base < q ==> p <= base * p < p * q
    ensures base >= q ==> base * p >= p * q
    ensures base * p % (p * q) == base % q * p
  {
    ScaledMod(base, p, q);
    ProductBound(base, p, q);
    Multiple(base, p);
  }

  lemma WrapDecides(x: int, left: int)
    requires 0 < x && left == x % TWO_64
    ensures var d := Wrap(x) as int;
            (if d > CAP || d <= 0 then CAP else d) == (if x > CAP then CAP else x)
            <==> !(x >= TWO_64 && 0 < left < CAP)
  {
  }

  /** For every positive base, the delay is base * 2^(attempt-1) capped at 5s
      exactly when the overflowed product does not alias a shorter delay. */
  lemma ExactUnlessAliased(base: Int64, attempt: int)
    requires base > 0 && attempt >= 1
    ensures TransientBackoff(base, attempt) as int == Ideal(base as int, attempt) <==> !Aliased(base as int, attempt)
  {
    var n := attempt - 1;
    Multiple(base as int, Pow2(n));
    if n < 64 {
      WordOf(base as int, n);
      WrapDecides(base as int * Pow2(n), LeftOver(base as int, n));
    } else {
      Pow2Values();
      Pow2Grows(64, n);
    }
  }

  /** Attempts below 1 count as the first, which waits the base itself. */
  lemma FirstAttemptWaitsTheBase(base: Int64, attempt: int)
    requires attempt <= 1
    ensures TransientBackoff(base, attempt) == if 0 < base <= 5_000_000_000 then base else 5_000_000_000
  {
    assert Pow2(0) == 1;
    assert base as int * Pow2(0) == base as int;
  }

  lemma SmallBaseNeverAliases(base: int, attempt: int)
    requires 1 <= base <= 0x1_0000_0000 && attempt >= 1
    ensures !Aliased(base, attempt)
  {
    var n := attempt - 1;
    Pow2Values();
    if n < 32 {
      Pow2Grows(33, 64 - n);
    } else if n == 32 {
      if base == Pow2(32) { assert LeftOver(base, 32) == 0; }
    } else if n < 64 {
      Pow2Grows(33, n);
      Multiple(base % Pow2(64 - n), Pow2(n));
    }
  }

  lemma ScaleUp(b: int, x: int, y: int)
    requires b > 0 && x <= y
    ensures b * x <= b * y
  {
  }

  /** Up to a base of 2^32 ns the delay is exact and never shrinks. */
  lemma BackoffDoublesAndSaturates(base: Int64, attempt: int, later: int)
    requires 1 <= base <= 0x1_0000_0000 && 1 <= attempt <= later
    ensures TransientBackoff(base, attempt) as int == Ideal(base as int, attempt)
    ensures TransientBackoff(base, attempt) <= TransientBackoff(base, later)
  {
    ExactUnlessAliased(base, attempt);
    ExactUnlessAliased(base, later);
    SmallBaseNeverAliases(base as int, attempt);
    SmallBaseNeverAliases(base as int, later);
    Pow2Grows(attempt - 1, later - 1);
    ScaleUp(base as int, Pow2(attempt - 1), Pow2(later - 1));
  }

  /** One past that bound it fails: attempt 33 waits 4.29s, less than attempt 32. */
  lemma AliasingExists()
    ensures Aliased(0x1_0000_0001, 33)
    ensures TransientBackoff(0x1_0000_0001, 33) == 0x1_0000_0000
    ensures TransientBackoff(0x1_0000_0001, 33) < TransientBackoff(0x1_0000_0001, 32)
  {
    Pow2Values();
    WordOf(0x1_0000_0001, 32);
    assert LeftOver(0x1_0000_0001, 32) == 0x1_0000_0000;
    Pow2Adds(31, 1);
    assert Pow2(31) == 0x8000_0000;
  }
}
