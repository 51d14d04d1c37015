/** Saturating unsigned 64-bit arithmetic, over naturals. */
module Saturation {

  const U64_MAX: nat := 0xFFFF_FFFF_FFFF_FFFF

  function Sat(x: nat): (r: nat)
    ensures r <= U64_MAX
  {
    if x <= U64_MAX then x else U64_MAX
  }

  function SatAdd(a: nat, b: nat): (r: nat)
    ensures r <= U64_MAX
  {
    Sat(a + b)
  }

  function SatSub(a: nat, b: nat): nat {
    if a <= b then 0 else a - b
  }

  /** The largest value is 2^64 - 1. */
  lemma SaturatesAt64Bits()
    ensures Sat(18_446_744_073_709_551_615) == 18_446_744_073_709_551_615
    ensures Sat(18_446_744_073_709_551_616) == 18_446_744_073_709_551_615
  {
  }

  lemma SatNone(a: nat)
    requires a <= U64_MAX
    ensures Sat(a) == a && SatAdd(a, 0) == a && SatSub(a, 0) == a
  {
  }

  lemma SatMonotone(a: nat, b: nat)
    requires a <= b
    ensures Sat(a) <= Sat(b)
  {
  }

  /** Adding with saturation, step by step, saturates the true sum. */
  lemma SatStep(a: nat, b: nat)
    ensures SatAdd(Sat(a), b) == Sat(a + b)
    ensures SatAdd(Sat(a), Sat(b)) == Sat(a + b)
    ensures SatAdd(a, Sat(b)) == Sat(a + b)
    ensures SatAdd(a, b) == Sat(a + b)
  {
  }

  lemma SatChain(total: nat, done: nat, one: nat, next: nat)
    ensures SatAdd(SatAdd(total, done) + one, next) == SatAdd(total, done + one + next)
  {
    SatStep(total + done, one + next);
    SatStep(SatAdd(total, done) + one, next);
  }

  /** Below the largest value a saturated sum is within a bound exactly when the true sum is. */
  lemma SatWithin(x: nat, cap: nat)
    requires cap < U64_MAX
    ensures Sat(x) <= cap <==> x <= cap
  {
  }

  /** Charging first and freeing later is the same when one of the two is nothing. */
  lemma SatReorder(used: nat, freed: nat, extra: nat, n: nat)
    requires used <= U64_MAX && (freed == 0 || extra == 0)
    ensures SatAdd(SatSub(SatAdd(used, extra), freed), Sat(n)) == SatAdd(SatSub(used, freed), SatAdd(n, extra))
  {
    if extra > 0 {
      SatStep(used + extra, n);
      SatStep(used, n + extra);
      assert SatAdd(used, extra) == Sat(used + extra) && SatAdd(n, extra) == Sat(n + extra);
    }
  }
}
