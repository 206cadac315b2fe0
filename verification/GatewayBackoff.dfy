/** Retry delays of the Gateway link: a saturating failure count, an exponential
    ceiling and equal jitter below it. */
module GatewayBackoff {

  const MAX_FAILURES: nat := 31

  function Min(a: int, b: int): int { if a <= b then a else b }

  function Max(a: int, b: int): int { if a <= b then b else a }

  function Pow2(n: nat): nat { if n == 0 then 1 else 2 * Pow2(n - 1) }

  /** The saturating successor the controller applies to its failure count. */
  function Saturate(n: nat): nat { Min(MAX_FAILURES, n) }

  /** The configured bounds, as the controller's constructor accepts them. */
  predicate ValidBounds(base: nat, cap: nat) { 1 <= base <= cap <= 86_400_000 }

  function Ceiling(base: nat, cap: nat, failures: nat): nat
    requires 1 <= failures
  {
    Min(cap, base * Pow2(Min(failures - 1, 30)))
  }

  function Half(c: nat): real { c as real / 2.0 }

  function HalfUp(c: nat): nat { (c + 1) / 2 }

  /** The delay that is armed, for a jitter fraction drawn from [0, 1). */
  function Delay(c: nat, fraction: real): int {
    Max(1, Min(c, (Half(c) + fraction * (HalfUp(c) as real)).Floor))
  }

  /** A fraction outside [0, 1) is replaced by one half. */
  function Jitter(drawn: real): real { if 0.0 <= drawn < 1.0 then drawn else 0.5 }

  predicate DelayWithin(delay: int, c: nat) { Max(1, c / 2) <= delay <= c }

  lemma {:induction false} Pow2Grows(m: nat, n: nat)
    requires m <= n
    ensures 1 <= Pow2(m) <= Pow2(n)
  {
    if m < n {
      Pow2Grows(m, n - 1);
    } else if m > 0 {
      Pow2Grows(m - 1, n - 1);
    }
  }

  lemma ProductGrows(base: nat, p: nat, q: nat)
    requires p <= q
    ensures base * p <= base * q
  {}

  /** The ceiling never decreases as failures accumulate, never exceeds the cap
      and is never below the base. */
  lemma CeilingMonotone(base: nat, cap: nat, m: nat, n: nat)
    requires ValidBounds(base, cap) && 1 <= m <= n
    ensures base <= Ceiling(base, cap, m) <= Ceiling(base, cap, n) <= cap
  {
    var e, f := Min(m - 1, 30), Min(n - 1, 30);
    Pow2Grows(e, f);
    ProductGrows(base, 1, Pow2(e));
    ProductGrows(base, Pow2(e), Pow2(f));
  }

  /** Beyond the saturation point the count no longer matters: a saturated
      counter loses nothing. */
  lemma CeilingSaturates(base: nat, cap: nat, n: nat)
    requires 1 <= n
    ensures Ceiling(base, cap, n) == Ceiling(base, cap, Saturate(n))
  {
    assert Min(n - 1, 30) == Min(Saturate(n) - 1, 30);
  }

  lemma JitterSpan(k: nat, fraction: real)
    requires 0.0 <= fraction < 1.0
    ensures 0.0 <= fraction * (k as real) <= k as real
    ensures 0 < k ==> fraction * (k as real) < k as real
  {}

  /** Equal jitter stays away from a hot loop and never exceeds the ceiling. */
  lemma DelayBounds(c: nat, drawn: real)
    requires 1 <= c
    ensures DelayWithin(Delay(c, Jitter(drawn)), c)
  {
    JitterSpan(HalfUp(c), Jitter(drawn));
    var x := Half(c) + Jitter(drawn) * (HalfUp(c) as real);
    assert Half(c) <= x;
    assert (c / 2) as real <= x;
    assert c / 2 <= x.Floor;
  }

  /** The low end is reached, and the high end up to one; for an even ceiling it is not. */
  lemma DelayEndsReached(c: nat)
    requires 1 <= c
    ensures Delay(c, 0.0) == Max(1, c / 2)
    ensures exists f :: 0.0 <= f < 1.0 && Delay(c, f) >= c - 1
  {
    assert 0.0 * (HalfUp(c) as real) == 0.0;
    assert Half(c).Floor == c / 2 by {
      assert (c / 2) as real <= Half(c) < (c / 2) as real + 1.0;
    }
    var k := HalfUp(c) as real;
    var f := 1.0 - 0.5 / k;
    assert f * k == k - 0.5;
    assert Half(c) + f * k >= (c - 1) as real;
    assert Delay(c, f) >= c - 1;
  }

  /** The ceiling starts at the base, doubles with every failure until the cap, and stays where
      it is from the saturation point on. */
  lemma CeilingDoubles(base: nat, cap: nat, n: nat)
    requires ValidBounds(base, cap) && 1 <= n
    ensures Ceiling(base, cap, 1) == base
    ensures n < MAX_FAILURES ==> Ceiling(base, cap, n + 1) == Min(cap, 2 * Ceiling(base, cap, n))
    ensures MAX_FAILURES <= n ==> Ceiling(base, cap, n) == Ceiling(base, cap, MAX_FAILURES)
  {
    assert Pow2(0) == 1;
    if n < MAX_FAILURES {
      var x := base * Pow2(n - 1);
      assert base * Pow2(n) == 2 * x;
      assert Min(cap, 2 * x) == Min(cap, 2 * Min(cap, x));
    }
  }

  /** The delay follows the draw: less than a millisecond below half the ceiling plus `jitter`,
      that share of the other half, except that a ceiling of one leaves no choice. A draw
      outside [0, 1) counts as one half. */
  lemma DelayFollowsDraw(c: nat, share: real, jitter: real)
    requires 1 <= c && 0.0 <= share < 1.0 && jitter == share * (HalfUp(c) as real)
    ensures Jitter(share) == share && forall drawn :: drawn < 0.0 || 1.0 <= drawn ==> Jitter(drawn) == 0.5
    ensures if c == 1 then Delay(c, share) == 1
            else Half(c) + jitter - 1.0 < Delay(c, share) as real <= Half(c) + jitter
  {
    JitterBelow(HalfUp(c), share, jitter);
    FloorIsClose(c, jitter);
  }

  lemma JitterBelow(k: nat, share: real, jitter: real)
    requires 1 <= k && 0.0 <= share < 1.0 && jitter == share * (k as real)
    ensures 0.0 <= jitter < k as real
  {}

  lemma FloorIsClose(c: nat, jitter: real)
    requires 1 <= c && 0.0 <= jitter < HalfUp(c) as real
    ensures var delay := Max(1, Min(c, (Half(c) + jitter).Floor));
            if c == 1 then delay == 1 else Half(c) + jitter - 1.0 < delay as real <= Half(c) + jitter
  {
    assert HalfUp(c) as real <= Half(c) + 0.5;
  }
}
