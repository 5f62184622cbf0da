/** Flux and characteristic speed of the Lighthill-Whitham-Richards traffic
    model, f(q, v) = v q (1 - q) and c(q, v) = f'(q) = v (1 - 2q), with the
    algebra of their inverses that the Riemann solver relies on. */
module TrafficFlux {

  /** Traffic flux at density q under speed limit v. */
  function Flux(q: real, v: real): real {
    v * q * (1.0 - q)
  }

  /** Characteristic speed: the derivative of Flux with respect to q. */
  function CharSpeed(q: real, v: real): real {
    v * (1.0 - 2.0 * q)
  }

  /** Density inside a rarefaction fan at similarity coordinate xi, (1 - xi/v)/2:
      the density whose characteristic speed is xi. */
  function FanDensity(v: real, xi: real): (q: real)
    requires v != 0.0
    ensures CharSpeed(q, v) == xi
  {
    CharSpeedOfHalfComplement(v, xi / v);
    CancelDivision(v, xi);
    (1.0 - xi / v) / 2.0
  }

  /** The fan profile takes the value q exactly where the characteristic speed is c(q, v). */
  lemma FanDensityAtCharSpeed(q: real, v: real)
    requires v != 0.0
    ensures FanDensity(v, CharSpeed(q, v)) == q
  {
    CharSpeedOverLimit(q, v);
  }

  /** np.sqrt is a library call: the model receives it as a parameter that must be
      an exact square root on non-negative arguments. */
  ghost predicate IsSqrt(sqrt: real -> real) {
    forall x: real :: 0.0 <= x ==> 0.0 <= sqrt(x) && sqrt(x) * sqrt(x) == x
  }

  /** A square root, defined only for a non-negative argument. */
  function Root(sqrt: real -> real, x: real): (r: real)
    requires IsSqrt(sqrt) && 0.0 <= x
    ensures 0.0 <= r && r * r == x
  {
    sqrt(x)
  }

  /** Difference of fluxes under one speed limit, in factored form. */
  lemma FluxDifference(p: real, q: real, v: real)
    ensures Flux(q, v) - Flux(p, v) == v * ((q - p) * (1.0 - q - p))
  {
  }

  /** The flux strictly increases on densities up to 1/2. */
  lemma FluxIncreasingBelowPeak(p: real, q: real, v: real)
    requires v > 0.0 && p < q <= 0.5
    ensures Flux(p, v) < Flux(q, v)
  {
    FluxDifference(p, q, v);
    TriplePositive(v, q - p, 1.0 - q - p);
  }

  /** The flux strictly decreases on densities from 1/2 on. */
  lemma FluxDecreasingAbovePeak(p: real, q: real, v: real)
    requires v > 0.0 && 0.5 <= p < q
    ensures Flux(q, v) < Flux(p, v)
  {
    FluxDifference(p, q, v);
    TriplePositive(v, q - p, p + q - 1.0);
  }

  /** The flux never exceeds its peak v/4, and reaches it only at q = 1/2. */
  lemma FluxAtMostPeak(q: real, v: real)
    requires v > 0.0
    ensures Flux(q, v) <= v / 4.0
    ensures Flux(q, v) == v / 4.0 <==> q == 0.5
  {
    assert Flux(0.5, v) == v / 4.0;
    if q < 0.5 {
      FluxIncreasingBelowPeak(q, 0.5, v);
    } else if q > 0.5 {
      FluxDecreasingAbovePeak(0.5, q, v);
    }
  }

  /** A density whose flux exceeds that of a density q >= 1/2 lies below q. */
  lemma HigherFluxBelow(p: real, q: real, v: real)
    requires v > 0.0 && 0.5 <= q && Flux(q, v) < Flux(p, v)
    ensures p < q
  {
    if q < p {
      FluxDecreasingAbovePeak(q, p, v);
    }
  }

  /** A density whose flux exceeds that of a density q <= 1/2 lies above q. */
  lemma HigherFluxAbove(p: real, q: real, v: real)
    requires v > 0.0 && q <= 0.5 && Flux(q, v) < Flux(p, v)
    ensures q < p
  {
    if p < q {
      FluxIncreasingBelowPeak(p, q, v);
    }
  }

  /** The flux is non-negative exactly on the unit interval of densities. */
  lemma FluxNonnegativeIffUnit(q: real, v: real)
    requires v > 0.0
    ensures 0.0 <= Flux(q, v) <==> 0.0 <= q <= 1.0
  {
    assert Flux(0.0, v) == 0.0 && Flux(1.0, v) == 0.0;
    if q < 0.0 {
      FluxIncreasingBelowPeak(q, 0.0, v);
    } else if q > 1.0 {
      FluxDecreasingAbovePeak(1.0, q, v);
    } else if q <= 0.5 {
      if 0.0 < q {
        FluxIncreasingBelowPeak(0.0, q, v);
      }
    } else if q < 1.0 {
      FluxDecreasingAbovePeak(q, 1.0, v);
    }
  }

  /** The sign of the characteristic speed tells which side of 1/2 the density is on. */
  lemma CharSpeedSign(q: real, v: real)
    requires v > 0.0
    ensures CharSpeed(q, v) < 0.0 <==> q > 0.5
    ensures CharSpeed(q, v) == 0.0 <==> q == 0.5
  {
  }

  /** The characteristic speed strictly decreases in q. */
  lemma CharSpeedDecreasing(p: real, q: real, v: real)
    requires v > 0.0 && p < q
    ensures CharSpeed(q, v) < CharSpeed(p, v)
  {
  }

  /** Given s = sqrt(1 - 4f/v), the densities (1 + s)/2 and (1 - s)/2 both carry flux f. */
  lemma RootsHaveFlux(f: real, v: real, s: real)
    requires v > 0.0 && 0.0 <= s && s * s == 1.0 - 4.0 * f / v
    ensures Flux((1.0 + s) / 2.0, v) == f && Flux((1.0 - s) / 2.0, v) == f
  {
  }

  /** A flux at most the peak of speed limit v gives a non-negative radicand 1 - 4f/v. */
  lemma RadicandNonnegative(f: real, v: real)
    requires v > 0.0 && f <= v / 4.0
    ensures 0.0 <= 1.0 - 4.0 * f / v
  {
  }

  /** A ratio of two speed limits, the smaller over the larger, gives a positive radicand. */
  lemma RatioRadicandPositive(a: real, b: real)
    requires 0.0 < a < b
    ensures 0.0 < 1.0 - a / b < 1.0
  {
    QuotientInUnit(a, b);
  }

  /** The radicand 1 - 4f/v at the peak flux f = a/4 of another speed limit a is 1 - a/v. */
  lemma PeakRadicand(a: real, v: real)
    requires v != 0.0
    ensures 1.0 - 4.0 * (a / 4.0) / v == 1.0 - a / v
  {
  }

  /** The Rankine-Hugoniot speed of a jump from density a up to density b under one
      speed limit: it conserves flux, lies strictly between the characteristic speeds
      on either side (Lax's entropy condition), and is negative exactly when the flux drops. */
  lemma ShockSpeedFacts(a: real, b: real, v: real)
    requires v > 0.0 && a < b
    ensures var s := (Flux(b, v) - Flux(a, v)) / (b - a);
      && s * (b - a) == Flux(b, v) - Flux(a, v)
      && CharSpeed(b, v) < s < CharSpeed(a, v)
      && (s < 0.0 <==> Flux(b, v) < Flux(a, v))
      && (0.0 < s <==> Flux(a, v) < Flux(b, v))
  {
    var s := (Flux(b, v) - Flux(a, v)) / (b - a);
    FluxDifference(a, b, v);
    assert s == v * (1.0 - b - a);
    assert CharSpeed(b, v) < s < CharSpeed(a, v);
  }

  // Elementary facts of real arithmetic, kept in lemmas of their own: the verifier
  // proves each of them alone but not always inside a larger context.

  lemma TriplePositive(v: real, x: real, y: real)
    requires 0.0 < v && 0.0 < x && 0.0 < y
    ensures 0.0 < v * (x * y)
  {
  }

  lemma CancelDivision(v: real, x: real)
    requires v != 0.0
    ensures v * (x / v) == x
  {
  }

  lemma CharSpeedOfHalfComplement(v: real, r: real)
    ensures CharSpeed((1.0 - r) / 2.0, v) == v * r
  {
  }

  lemma CharSpeedOverLimit(q: real, v: real)
    requires v != 0.0
    ensures CharSpeed(q, v) / v == 1.0 - 2.0 * q
  {
    ExactQuotient(CharSpeed(q, v), v, 1.0 - 2.0 * q);
  }

  lemma ExactQuotient(x: real, v: real, y: real)
    requires v != 0.0 && x == v * y
    ensures x / v == y
  {
    CancelDivision(v, x);
    ZeroFactor(v, x / v - y);
  }

  lemma ZeroFactor(v: real, x: real)
    requires v != 0.0 && v * x == 0.0
    ensures x == 0.0
  {
  }

  lemma ProductNonnegative(x: real, y: real)
    requires 0.0 <= x && 0.0 <= y
    ensures 0.0 <= x * y
  {
  }

  lemma QuotientInUnit(a: real, b: real)
    requires 0.0 < a < b
    ensures 0.0 < a / b < 1.0
  {
    var r := a / b;
    assert r * b == a;
    if r <= 0.0 {
      ProductNonnegative(-r, b);
    } else if 1.0 <= r {
      ProductNonnegative(r - 1.0, b);
    }
  }
}
