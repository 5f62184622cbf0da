/** The output of the Riemann solver: the states, the waves between them, and the
    density profile as a sum of indicator-weighted terms over the similarity
    coordinate xi = x/t. */
module Waves {
  import opened TrafficFlux

  datatype WaveType = Shock | Raref | Contact

  /** A single speed for a shock or the contact, a range for a rarefaction fan. */
  datatype Speed = Point(at: real) | Interval(lo: real, hi: real)
  {
    /** The slowest speed of the wave (min(speeds[i]) for a fan). */
    function Min(): real {
      match this
      case Point(a) => a
      case Interval(l, _) => l
    }

    /** The fastest speed of the wave. */
    function Max(): real {
      match this
      case Point(a) => a
      case Interval(_, h) => h
    }
  }

  /** Lower end of an indicator: none, a < xi, or a <= xi. */
  datatype Lower = NoLower | Above(a: real) | AtLeast(a: real)

  /** Upper end of an indicator: none, xi < b, or xi <= b. */
  datatype Upper = NoUpper | Below(b: real) | AtMost(b: real)

  /** What a term contributes where its indicator holds: a constant density, or the
      rarefaction profile (1 - xi/v)/2. */
  datatype Density = Const(q: real) | Fan(v: real)

  /** One summand of an evaluator: indicator(lower, upper) * density. */
  datatype Term = Term(lower: Lower, upper: Upper, density: Density)

  /** States from left to right, one speed and one type per wave between two
      consecutive states, and the evaluator's terms. */
  datatype Solution = Solution(
    states: seq<real>,
    speeds: seq<Speed>,
    waveTypes: seq<WaveType>,
    profile: seq<Term>)

  predicate Active(t: Term, xi: real) {
    && (match t.lower
        case NoLower => true
        case Above(a) => a < xi
        case AtLeast(a) => a <= xi)
    && (match t.upper
        case NoUpper => true
        case Below(b) => xi < b
        case AtMost(b) => xi <= b)
  }

  /** Every fan divides by a non-zero speed limit. */
  predicate Evaluable(terms: seq<Term>) {
    forall i :: 0 <= i < |terms| ==> terms[i].density.Fan? ==> terms[i].density.v != 0.0
  }

  function Value(d: Density, xi: real): real
    requires d.Fan? ==> d.v != 0.0
  {
    match d
    case Const(q) => q
    case Fan(v) => FanDensity(v, xi)
  }

  function Weight(t: Term, xi: real): real
    requires t.density.Fan? ==> t.density.v != 0.0
  {
    if Active(t, xi) then Value(t.density, xi) else 0.0
  }

  /** The evaluator at one point: the sum of the weights of all terms. */
  function Eval(terms: seq<Term>, xi: real): real
    requires Evaluable(terms)
  {
    if terms == [] then 0.0 else Weight(terms[0], xi) + Eval(terms[1..], xi)
  }

  /** The evaluator applied pointwise to a sequence of coordinates: one density per
      input, each depending only on its own coordinate. */
  function Evaluate(sol: Solution, xis: seq<real>): (qs: seq<real>)
    requires Evaluable(sol.profile)
    ensures |qs| == |xis|
    ensures forall i :: 0 <= i < |xis| ==> qs[i] == Eval(sol.profile, xis[i])
  {
    if xis == [] then [] else [Eval(sol.profile, xis[0])] + Evaluate(sol, xis[1..])
  }

  /** With no term active, the evaluator gives 0. */
  lemma {:induction false} EvalNoneActive(terms: seq<Term>, xi: real)
    requires Evaluable(terms)
    requires forall j :: 0 <= j < |terms| ==> !Active(terms[j], xi)
    ensures Eval(terms, xi) == 0.0
  {
    if terms != [] {
      EvalNoneActive(terms[1..], xi);
    }
  }

  /** With exactly one term active, the evaluator gives that term's density. */
  lemma {:induction false} EvalOneActive(terms: seq<Term>, k: int, xi: real)
    requires Evaluable(terms) && 0 <= k < |terms| && Active(terms[k], xi)
    requires forall j :: 0 <= j < |terms| && j != k ==> !Active(terms[j], xi)
    ensures Eval(terms, xi) == Value(terms[k].density, xi)
  {
    if k == 0 {
      EvalNoneActive(terms[1..], xi);
    } else {
      EvalOneActive(terms[1..], k - 1, xi);
    }
  }

  /** With exactly two terms active, the evaluator gives the sum of their densities. */
  lemma {:induction false} EvalTwoActive(terms: seq<Term>, j: int, k: int, xi: real)
    requires Evaluable(terms) && 0 <= j < k < |terms|
    requires Active(terms[j], xi) && Active(terms[k], xi)
    requires forall i :: 0 <= i < |terms| && i != j && i != k ==> !Active(terms[i], xi)
    ensures Eval(terms, xi) == Value(terms[j].density, xi) + Value(terms[k].density, xi)
  {
    if j == 0 {
      EvalOneActive(terms[1..], k - 1, xi);
    } else {
      EvalTwoActive(terms[1..], j - 1, k - 1, xi);
    }
  }

  /** Number of contact waves. */
  function ContactCount(types: seq<WaveType>): nat {
    multiset(types)[Contact]
  }

  /** The speed limit that governs a wave, chosen as the plotter chooses it: the
      left one for a wave with a negative speed, the right one otherwise. */
  function SideLimit(sp: Speed, vl: real, vr: real): real {
    if sp.Min() < 0.0 then vl else vr
  }

  /** The states run from q_l to q_r. */
  predicate Endpoints(sol: Solution, ql: real, qr: real) {
    && |sol.states| >= 2
    && sol.states[0] == ql
    && sol.states[|sol.states| - 1] == qr
  }

  /** One wave between consecutive states; a fan and only a fan has a speed range;
      the contact sits at speed 0. */
  predicate WellShaped(sol: Solution) {
    && |sol.speeds| == |sol.states| - 1
    && |sol.waveTypes| == |sol.speeds|
    && (forall i :: 0 <= i < |sol.speeds| ==>
          (sol.waveTypes[i] == Raref <==> sol.speeds[i].Interval?)
          && (sol.waveTypes[i] == Contact ==> sol.speeds[i] == Point(0.0)))
  }

  /** Each fan's range is non-empty, and waves never cross: every wave is no faster
      than any wave to its right. */
  predicate SpeedsOrdered(sol: Solution) {
    && (forall i :: 0 <= i < |sol.speeds| ==> sol.speeds[i].Min() <= sol.speeds[i].Max())
    && (forall i, j :: 0 <= i < j < |sol.speeds| ==> sol.speeds[i].Max() <= sol.speeds[j].Min())
  }

  /** Across every contact the flux under v_l on its left equals the flux under v_r
      on its right. */
  predicate FluxConserved(sol: Solution, vl: real, vr: real)
    requires |sol.waveTypes| < |sol.states|
  {
    forall i :: 0 <= i < |sol.waveTypes| && sol.waveTypes[i] == Contact ==>
      Flux(sol.states[i], vl) == Flux(sol.states[i + 1], vr)
  }

  /** A shock from a to b at speed s under speed limit v: not stationary,
      Rankine-Hugoniot, and characteristics run into it from both sides. */
  predicate ShockAdmissible(a: real, b: real, s: real, v: real) {
    && s != 0.0
    && s * (b - a) == Flux(b, v) - Flux(a, v)
    && CharSpeed(b, v) < s < CharSpeed(a, v)
  }

  predicate ShocksAdmissible(sol: Solution, vl: real, vr: real)
    requires WellShaped(sol)
  {
    forall i :: 0 <= i < |sol.waveTypes| && sol.waveTypes[i] == Shock ==>
      ShockAdmissible(sol.states[i], sol.states[i + 1], sol.speeds[i].at,
                      SideLimit(sol.speeds[i], vl, vr))
  }

  /** A fan from a to b spans exactly the characteristic speeds of a and b under
      the speed limit of its side. */
  predicate FansAdmissible(sol: Solution, vl: real, vr: real)
    requires WellShaped(sol)
  {
    forall i :: 0 <= i < |sol.waveTypes| && sol.waveTypes[i] == Raref ==>
      && sol.speeds[i].lo == CharSpeed(sol.states[i], SideLimit(sol.speeds[i], vl, vr))
      && sol.speeds[i].hi == CharSpeed(sol.states[i + 1], SideLimit(sol.speeds[i], vl, vr))
  }

  /** Everything the solver promises about the shape of a solution. */
  predicate Admissible(sol: Solution, ql: real, qr: real, vl: real, vr: real) {
    && Endpoints(sol, ql, qr)
    && WellShaped(sol)
    && SpeedsOrdered(sol)
    && FluxConserved(sol, vl, vr)
    && ShocksAdmissible(sol, vl, vr)
    && FansAdmissible(sol, vl, vr)
    && Evaluable(sol.profile)
  }

  /** Consequence of the ordering: every wave left of the contact is slower than 0
      (a shock strictly), every wave right of it faster, and each is governed by
      the speed limit of its side. */
  lemma ContactSeparatesSides(sol: Solution, ql: real, qr: real, vl: real, vr: real, k: int, i: int)
    requires Admissible(sol, ql, qr, vl, vr)
    requires 0 <= k < |sol.waveTypes| && sol.waveTypes[k] == Contact && 0 <= i < |sol.waveTypes|
    ensures i < k ==> sol.speeds[i].Max() <= 0.0
    ensures i < k && sol.waveTypes[i] == Shock ==> sol.speeds[i].at < 0.0 && SideLimit(sol.speeds[i], vl, vr) == vl
    ensures k < i ==> 0.0 <= sol.speeds[i].Min() && SideLimit(sol.speeds[i], vl, vr) == vr
    ensures k < i && sol.waveTypes[i] == Shock ==> 0.0 < sol.speeds[i].at
  {
    assert sol.speeds[k] == Point(0.0);
    if sol.waveTypes[i] == Shock {
      assert ShockAdmissible(sol.states[i], sol.states[i + 1], sol.speeds[i].at,
                             SideLimit(sol.speeds[i], vl, vr));
    }
    if i < k {
      assert sol.speeds[i].Max() <= sol.speeds[k].Min();
    } else if k < i {
      assert sol.speeds[k].Max() <= sol.speeds[i].Min();
    }
  }

  /** A fan meets its neighbouring states: its profile equals the left state at its
      slowest speed and the right state at its fastest. */
  lemma FanMeetsNeighbours(sol: Solution, ql: real, qr: real, vl: real, vr: real, i: int)
    requires Admissible(sol, ql, qr, vl, vr) && vl > 0.0 && vr > 0.0
    requires 0 <= i < |sol.waveTypes| && sol.waveTypes[i] == Raref
    ensures FanDensity(SideLimit(sol.speeds[i], vl, vr), sol.speeds[i].lo) == sol.states[i]
    ensures FanDensity(SideLimit(sol.speeds[i], vl, vr), sol.speeds[i].hi) == sol.states[i + 1]
    ensures sol.states[i + 1] <= sol.states[i]
  {
    var v := SideLimit(sol.speeds[i], vl, vr);
    FanDensityAtCharSpeed(sol.states[i], v);
    FanDensityAtCharSpeed(sol.states[i + 1], v);
    if sol.states[i] < sol.states[i + 1] {
      CharSpeedDecreasing(sol.states[i], sol.states[i + 1], v);
    }
  }
}
