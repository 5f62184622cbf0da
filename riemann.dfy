/** The exact Riemann solver of the LWR traffic model with a speed limit that
    jumps from v_l to v_r at x = 0: it classifies the data (q_l, q_r, v_l, v_r)
    into one wave pattern and builds that pattern's states, waves and evaluator. */
module VariableSpeedRiemann {
  import opened TrafficFlux
  import opened Waves

  /** The wave patterns, in the order the solver tries them. */
  datatype Pattern =
    | ContactOnly
    | LeftShock
    | RightShock
    | ShockRaref
    | RarefShock
    | LeftRaref
    | RightRaref
    | TransonicLeftStar
    | TransonicRightStar
    | TransonicEqual
    | Unclassified

  /** What the solver returns: a solution, or the "Unhandled state!" failure with
      the two fluxes it reports. */
  datatype SolveResult =
    | Solved(solution: Solution)
    | UnhandledState(fluxLeft: real, fluxRight: real)

  predicate ContactGuard(ql: real, qr: real, vl: real, vr: real) {
    Flux(qr, vr) == Flux(ql, vl)
  }

  predicate LeftShockGuard(ql: real, qr: real, vl: real, vr: real) {
    Flux(qr, vr) < Flux(ql, vl) && qr > 0.5
  }

  predicate RightShockGuard(ql: real, qr: real, vl: real, vr: real) {
    Flux(qr, vr) > Flux(ql, vl) && ql < 0.5
  }

  predicate ShockRarefGuard(ql: real, qr: real, vl: real, vr: real) {
    Flux(ql, vl) > vr / 4.0 && qr <= 0.5
  }

  predicate RarefShockGuard(ql: real, qr: real, vl: real, vr: real) {
    Flux(qr, vr) > vl / 4.0 && ql >= 0.5
  }

  predicate LeftRarefGuard(ql: real, qr: real, vl: real, vr: real) {
    Flux(ql, vl) < Flux(qr, vr) <= vl / 4.0 && ql > 0.5 && qr >= 0.5
  }

  predicate RightRarefGuard(ql: real, qr: real, vl: real, vr: real) {
    Flux(qr, vr) < Flux(ql, vl) <= vr / 4.0 && ql <= 0.5 && qr < 0.5
  }

  predicate TransonicGuard(ql: real, qr: real, vl: real, vr: real) {
    ql >= 0.5 && qr <= 0.5 && Flux(ql, vl) <= vr / 4.0 && Flux(qr, vr) <= vl / 4.0
  }

  /** The if/elif chain: the first guard that holds decides the pattern; the
      transonic case is split by comparing the speed limits. */
  function Classify(ql: real, qr: real, vl: real, vr: real): Pattern {
    if ContactGuard(ql, qr, vl, vr) then ContactOnly
    else if LeftShockGuard(ql, qr, vl, vr) then LeftShock
    else if RightShockGuard(ql, qr, vl, vr) then RightShock
    else if ShockRarefGuard(ql, qr, vl, vr) then ShockRaref
    else if RarefShockGuard(ql, qr, vl, vr) then RarefShock
    else if LeftRarefGuard(ql, qr, vl, vr) then LeftRaref
    else if RightRarefGuard(ql, qr, vl, vr) then RightRaref
    else if TransonicGuard(ql, qr, vl, vr) then
      (if vr < vl then TransonicLeftStar
       else if vr > vl then TransonicRightStar
       else TransonicEqual)
    else Unclassified
  }

  /** Equal fluxes: a lone contact, and an evaluator that returns q_l everywhere. */
  function ContactOnlySolution(ql: real, qr: real, vl: real, vr: real): (sol: Solution)
    requires ContactGuard(ql, qr, vl, vr)
    ensures sol.waveTypes == [Contact] && sol.states == [ql, qr]
    ensures Admissible(sol, ql, qr, vl, vr)
  {
    Solution([ql, qr], [Point(0.0)], [Contact], [Term(NoLower, NoUpper, Const(ql))])
  }

  /** Left-going shock: q* is the root >= 1/2 of f(q, v_l) = f_r. */
  function LeftShockSolution(ql: real, qr: real, vl: real, vr: real, sqrt: real -> real): (sol: Solution)
    requires vl > 0.0 && vr > 0.0 && IsSqrt(sqrt) && LeftShockGuard(ql, qr, vl, vr)
    ensures sol.waveTypes == [Shock, Contact] && |sol.states| == 3
    ensures 0.0 <= 1.0 - 4.0 * Flux(qr, vr) / vl
    ensures 0.5 <= sol.states[1] && sol.states[1] != ql
    ensures Admissible(sol, ql, qr, vl, vr)
  {
    var fl := Flux(ql, vl);
    var fr := Flux(qr, vr);
    FluxAtMostPeak(ql, vl);
    RadicandNonnegative(fr, vl);
    var root := Root(sqrt, 1.0 - 4.0 * fr / vl);
    var qStar := (1.0 + root) / 2.0;
    var shockSpeed := (fr - fl) / (qStar - ql);
    ShockToUpperRoot(ql, fr, vl, root);
    var profile :=
      [Term(NoLower, AtMost(shockSpeed), Const(ql)),
       Term(Above(shockSpeed), AtMost(0.0), Const(qStar)),
       Term(AtLeast(0.0), NoUpper, Const(qr))];
    ShockContactShape(ql, qStar, qr, shockSpeed, vl, vr, profile);
    Solution([ql, qStar, qr], [Point(shockSpeed), Point(0.0)], [Shock, Contact], profile)
  }

  /** Right-going shock: q* is the root <= 1/2 of f(q, v_r) = f_l. */
  function RightShockSolution(ql: real, qr: real, vl: real, vr: real, sqrt: real -> real): (sol: Solution)
    requires vl > 0.0 && vr > 0.0 && IsSqrt(sqrt) && RightShockGuard(ql, qr, vl, vr)
    ensures sol.waveTypes == [Contact, Shock] && |sol.states| == 3
    ensures 0.0 <= 1.0 - 4.0 * Flux(ql, vl) / vr
    ensures sol.states[1] <= 0.5 && qr != sol.states[1]
    ensures Admissible(sol, ql, qr, vl, vr)
  {
    var fl := Flux(ql, vl);
    var fr := Flux(qr, vr);
    FluxAtMostPeak(qr, vr);
    RadicandNonnegative(fl, vr);
    var root := Root(sqrt, 1.0 - 4.0 * fl / vr);
    var qStar := (1.0 - root) / 2.0;
    var shockSpeed := (fr - fl) / (qr - qStar);
    ShockFromLowerRoot(qr, fl, vr, root);
    var profile :=
      [Term(NoLower, AtMost(0.0), Const(ql)),
       Term(Above(0.0), AtMost(shockSpeed), Const(qStar)),
       Term(AtLeast(shockSpeed), NoUpper, Const(qr))];
    ContactShockShape(ql, qStar, qr, shockSpeed, vl, vr, profile);
    Solution([ql, qStar, qr], [Point(0.0), Point(shockSpeed)], [Contact, Shock], profile)
  }

  /** Left-going shock and right-going rarefaction: the left flux exceeds the right
      peak, so the contact passes the peak flux v_r/4 from q* (root >= 1/2 of
      f(q, v_l) = v_r/4) to 1/2, and a fan opens from 1/2 to q_r. */
  function ShockRarefSolution(ql: real, qr: real, vl: real, vr: real, sqrt: real -> real): (sol: Solution)
    requires vl > 0.0 && vr > 0.0 && IsSqrt(sqrt) && ShockRarefGuard(ql, qr, vl, vr)
    ensures sol.waveTypes == [Shock, Contact, Raref] && |sol.states| == 4
    ensures 0.0 <= 1.0 - vr / vl
    ensures 0.5 <= sol.states[1] && sol.states[1] != ql && sol.states[2] == 0.5
    ensures Admissible(sol, ql, qr, vl, vr)
  {
    var fl := Flux(ql, vl);
    var cr := CharSpeed(qr, vr);
    FluxAtMostPeak(ql, vl);
    RatioRadicandPositive(vr, vl);
    var root := Root(sqrt, 1.0 - vr / vl);
    var qStar := (1.0 + root) / 2.0;
    PeakRadicand(vr, vl);
    var shockSpeed := -(fl - vr / 4.0) / (qStar - ql);
    assert shockSpeed == (vr / 4.0 - fl) / (qStar - ql);
    ShockToUpperRoot(ql, vr / 4.0, vl, root);
    assert Flux(0.5, vr) == vr / 4.0;
    CharSpeedSign(qr, vr);
    var profile :=
      [Term(NoLower, AtMost(shockSpeed), Const(ql)),
       Term(Above(shockSpeed), AtMost(0.0), Const(qStar)),
       Term(Above(0.0), Below(cr), Fan(vr)),
       Term(AtLeast(cr), NoUpper, Const(qr))];
    ShockContactRarefShape(ql, qStar, qr, shockSpeed, cr, vl, vr, profile);
    Solution(
      [ql, qStar, 0.5, qr],
      [Point(shockSpeed), Point(0.0), Interval(0.0, cr)],
      [Shock, Contact, Raref],
      profile)
  }

  /** Left-going rarefaction and right-going shock: the mirror image of
      ShockRarefSolution, with q* the root <= 1/2 of f(q, v_r) = v_l/4. */
  function RarefShockSolution(ql: real, qr: real, vl: real, vr: real, sqrt: real -> real): (sol: Solution)
    requires vl > 0.0 && vr > 0.0 && IsSqrt(sqrt) && RarefShockGuard(ql, qr, vl, vr)
    ensures sol.waveTypes == [Raref, Contact, Shock] && |sol.states| == 4
    ensures 0.0 <= 1.0 - vl / vr
    ensures sol.states[1] == 0.5 && sol.states[2] <= 0.5 && qr != sol.states[2]
    ensures Admissible(sol, ql, qr, vl, vr)
  {
    var fr := Flux(qr, vr);
    var cl := CharSpeed(ql, vl);
    FluxAtMostPeak(qr, vr);
    RatioRadicandPositive(vl, vr);
    var root := Root(sqrt, 1.0 - vl / vr);
    var qStar := (1.0 - root) / 2.0;
    PeakRadicand(vl, vr);
    var shockSpeed := (fr - vl / 4.0) / (qr - qStar);
    ShockFromLowerRoot(qr, vl / 4.0, vr, root);
    assert Flux(0.5, vl) == vl / 4.0;
    CharSpeedSign(ql, vl);
    var profile :=
      [Term(NoLower, AtMost(cl), Const(ql)),
       Term(Above(cl), AtMost(0.0), Fan(vl)),
       Term(Above(0.0), AtMost(shockSpeed), Const(qStar)),
       Term(Above(shockSpeed), NoUpper, Const(qr))];
    RarefContactShockShape(ql, qStar, qr, shockSpeed, cl, vl, vr, profile);
    Solution(
      [ql, 0.5, qStar, qr],
      [Interval(cl, 0.0), Point(0.0), Point(shockSpeed)],
      [Raref, Contact, Shock],
      profile)
  }

  /** Left-going rarefaction from q_l down to q*, the root >= 1/2 of f(q, v_l) = f_r. */
  function LeftRarefSolution(ql: real, qr: real, vl: real, vr: real, sqrt: real -> real): (sol: Solution)
    requires vl > 0.0 && vr > 0.0 && IsSqrt(sqrt) && LeftRarefGuard(ql, qr, vl, vr)
    ensures sol.waveTypes == [Raref, Contact] && |sol.states| == 3
    ensures 0.0 <= 1.0 - 4.0 * Flux(qr, vr) / vl
    ensures 0.5 <= sol.states[1]
    ensures Admissible(sol, ql, qr, vl, vr)
  {
    var fr := Flux(qr, vr);
    var cl := CharSpeed(ql, vl);
    RadicandNonnegative(fr, vl);
    var root := Root(sqrt, 1.0 - 4.0 * fr / vl);
    var qStar := (1.0 + root) / 2.0;
    RootsHaveFlux(fr, vl, root);
    HigherFluxBelow(qStar, ql, vl);
    var cStar := CharSpeed(qStar, vl);
    CharSpeedDecreasing(qStar, ql, vl);
    CharSpeedSign(ql, vl);
    CharSpeedSign(qStar, vl);
    var profile :=
      [Term(NoLower, AtMost(cl), Const(ql)),
       Term(Above(cl), AtMost(cStar), Fan(vl)),
       Term(Above(cStar), AtMost(0.0), Const(qStar)),
       Term(AtLeast(0.0), NoUpper, Const(qr))];
    RarefContactShape(ql, qStar, qr, cl, cStar, vl, vr, profile);
    Solution([ql, qStar, qr], [Interval(cl, cStar), Point(0.0)], [Raref, Contact], profile)
  }

  /** Right-going rarefaction from q*, the root <= 1/2 of f(q, v_r) = f_l, down to q_r. */
  function RightRarefSolution(ql: real, qr: real, vl: real, vr: real, sqrt: real -> real): (sol: Solution)
    requires vl > 0.0 && vr > 0.0 && IsSqrt(sqrt) && RightRarefGuard(ql, qr, vl, vr)
    ensures sol.waveTypes == [Contact, Raref] && |sol.states| == 3
    ensures 0.0 <= 1.0 - 4.0 * Flux(ql, vl) / vr
    ensures sol.states[1] <= 0.5
    ensures Admissible(sol, ql, qr, vl, vr)
  {
    var fl := Flux(ql, vl);
    var cr := CharSpeed(qr, vr);
    RadicandNonnegative(fl, vr);
    var root := Root(sqrt, 1.0 - 4.0 * fl / vr);
    var qStar := (1.0 - root) / 2.0;
    RootsHaveFlux(fl, vr, root);
    HigherFluxAbove(qStar, qr, vr);
    var cStar := CharSpeed(qStar, vr);
    CharSpeedDecreasing(qr, qStar, vr);
    CharSpeedSign(qStar, vr);
    var profile :=
      [Term(NoLower, AtMost(0.0), Const(ql)),
       Term(Above(0.0), AtMost(cStar), Const(qStar)),
       Term(Above(cStar), AtMost(cr), Fan(vr)),
       Term(AtLeast(cr), NoUpper, Const(qr))];
    ContactRarefShape(ql, qStar, qr, cStar, cr, vl, vr, profile);
    Solution([ql, qStar, qr], [Point(0.0), Interval(cStar, cr)], [Contact, Raref], profile)
  }

  /** Transonic rarefaction with v_r < v_l: a fan under v_l from q_l to q* (root
      >= 1/2 of f(q, v_l) = v_r/4), the contact to 1/2, a fan under v_r to q_r. */
  function TransonicLeftStarSolution(ql: real, qr: real, vl: real, vr: real, sqrt: real -> real): (sol: Solution)
    requires vl > 0.0 && vr > 0.0 && IsSqrt(sqrt) && TransonicGuard(ql, qr, vl, vr) && vr < vl
    ensures sol.waveTypes == [Raref, Contact, Raref] && |sol.states| == 4
    ensures 0.0 <= 1.0 - vr / vl
    ensures 0.5 <= sol.states[1] && sol.states[2] == 0.5
    ensures Admissible(sol, ql, qr, vl, vr)
  {
    var cl := CharSpeed(ql, vl);
    var cr := CharSpeed(qr, vr);
    RatioRadicandPositive(vr, vl);
    var root := Root(sqrt, 1.0 - vr / vl);
    var qStar := (1.0 + root) / 2.0;
    PeakRadicand(vr, vl);
    RootsHaveFlux(vr / 4.0, vl, root);
    var cStar := CharSpeed(qStar, vl);
    TransonicStarBelowLeft(ql, qStar, vl, vr / 4.0);
    assert CharSpeed(ql, vl) <= CharSpeed(qStar, vl) by {
      if qStar < ql {
        CharSpeedDecreasing(qStar, ql, vl);
      }
    }
    CharSpeedSign(qStar, vl);
    CharSpeedSign(qr, vr);
    var profile :=
      [Term(NoLower, AtMost(cl), Const(ql)),
       Term(Above(cl), AtMost(cStar), Fan(vl)),
       Term(Above(cStar), AtMost(0.0), Const(qStar)),
       Term(Above(0.0), AtMost(cr), Fan(vr)),
       Term(Above(cr), NoUpper, Const(qr))];
    RarefContactRarefShape(ql, qStar, 0.5, qr, cl, cStar, 0.0, cr, vl, vr, profile);
    Solution(
      [ql, qStar, 0.5, qr],
      [Interval(cl, cStar), Point(0.0), Interval(0.0, cr)],
      [Raref, Contact, Raref],
      profile)
  }

  /** Transonic rarefaction with v_r > v_l: the mirror image, q* the root <= 1/2 of
      f(q, v_r) = v_l/4. */
  function TransonicRightStarSolution(ql: real, qr: real, vl: real, vr: real, sqrt: real -> real): (sol: Solution)
    requires vl > 0.0 && vr > 0.0 && IsSqrt(sqrt) && TransonicGuard(ql, qr, vl, vr) && vr > vl
    ensures sol.waveTypes == [Raref, Contact, Raref] && |sol.states| == 4
    ensures 0.0 <= 1.0 - vl / vr
    ensures sol.states[1] == 0.5 && sol.states[2] <= 0.5
    ensures Admissible(sol, ql, qr, vl, vr)
  {
    var cl := CharSpeed(ql, vl);
    var cr := CharSpeed(qr, vr);
    RatioRadicandPositive(vl, vr);
    var root := Root(sqrt, 1.0 - vl / vr);
    var qStar := (1.0 - root) / 2.0;
    PeakRadicand(vl, vr);
    RootsHaveFlux(vl / 4.0, vr, root);
    var cStar := CharSpeed(qStar, vr);
    TransonicStarAboveRight(qr, qStar, vr, vl / 4.0);
    assert CharSpeed(qStar, vr) <= CharSpeed(qr, vr) by {
      if qr < qStar {
        CharSpeedDecreasing(qr, qStar, vr);
      }
    }
    CharSpeedSign(ql, vl);
    CharSpeedSign(qStar, vr);
    var profile :=
      [Term(NoLower, AtMost(cl), Const(ql)),
       Term(Above(cl), AtMost(0.0), Fan(vl)),
       Term(Above(0.0), AtMost(cStar), Const(qStar)),
       Term(Above(cStar), AtMost(cr), Fan(vr)),
       Term(Above(cr), NoUpper, Const(qr))];
    RarefContactRarefShape(ql, 0.5, qStar, qr, cl, 0.0, cStar, cr, vl, vr, profile);
    Solution(
      [ql, 0.5, qStar, qr],
      [Interval(cl, 0.0), Point(0.0), Interval(cStar, cr)],
      [Raref, Contact, Raref],
      profile)
  }

  /** Transonic rarefaction with equal speed limits: one fan from q_l to q_r and no contact. */
  function TransonicEqualSolution(ql: real, qr: real, vl: real, vr: real): (sol: Solution)
    requires vl > 0.0 && TransonicGuard(ql, qr, vl, vr) && vr == vl
    ensures sol.waveTypes == [Raref] && sol.states == [ql, qr]
    ensures Admissible(sol, ql, qr, vl, vr)
  {
    var cl := CharSpeed(ql, vl);
    var cr := CharSpeed(qr, vr);
    CharSpeedSign(ql, vl);
    CharSpeedSign(qr, vr);
    Solution(
      [ql, qr],
      [Interval(cl, cr)],
      [Raref],
      [Term(NoLower, AtMost(cl), Const(ql)),
       Term(Above(cl), AtMost(cr), Fan(vl)),
       Term(Above(cr), NoUpper, Const(qr))])
  }

  /** The exact Riemann solution for densities q_l, q_r and speed limits v_l, v_r > 0.
      np.sqrt is the parameter sqrt. */
  function Solve(ql: real, qr: real, vl: real, vr: real, sqrt: real -> real): (r: SolveResult)
    requires vl > 0.0 && vr > 0.0 && IsSqrt(sqrt)
    ensures r.UnhandledState? <==> Classify(ql, qr, vl, vr) == Unclassified
    ensures Classify(ql, qr, vl, vr) == Unclassified ==> r == UnhandledState(Flux(ql, vl), Flux(qr, vr))
    ensures r.Solved? ==> Admissible(r.solution, ql, qr, vl, vr)
    ensures r.Solved? ==>
      || ContactCount(r.solution.waveTypes) == 1
      || (Classify(ql, qr, vl, vr) == TransonicEqual && vl == vr && r.solution.waveTypes == [Raref])
  {
    match Classify(ql, qr, vl, vr)
    case ContactOnly => Solved(ContactOnlySolution(ql, qr, vl, vr))
    case LeftShock => Solved(LeftShockSolution(ql, qr, vl, vr, sqrt))
    case RightShock => Solved(RightShockSolution(ql, qr, vl, vr, sqrt))
    case ShockRaref => Solved(ShockRarefSolution(ql, qr, vl, vr, sqrt))
    case RarefShock => Solved(RarefShockSolution(ql, qr, vl, vr, sqrt))
    case LeftRaref => Solved(LeftRarefSolution(ql, qr, vl, vr, sqrt))
    case RightRaref => Solved(RightRarefSolution(ql, qr, vl, vr, sqrt))
    case TransonicLeftStar => Solved(TransonicLeftStarSolution(ql, qr, vl, vr, sqrt))
    case TransonicRightStar => Solved(TransonicRightStarSolution(ql, qr, vl, vr, sqrt))
    case TransonicEqual => Solved(TransonicEqualSolution(ql, qr, vl, vr))
    case Unclassified => UnhandledState(Flux(ql, vl), Flux(qr, vr))
  }

  /** A jump from density a up to the root q* = (1 + root)/2 of f(q, v) = g, with g
      below the flux of a, is an admissible left-going shock at the speed the
      solver computes. */
  lemma ShockToUpperRoot(a: real, g: real, v: real, root: real)
    requires v > 0.0 && 0.0 <= root && root * root == 1.0 - 4.0 * g / v && g < Flux(a, v)
    ensures 0.5 <= (1.0 + root) / 2.0 && a < (1.0 + root) / 2.0
    ensures Flux((1.0 + root) / 2.0, v) == g
    ensures var s := (g - Flux(a, v)) / ((1.0 + root) / 2.0 - a);
      s < 0.0 && ShockAdmissible(a, (1.0 + root) / 2.0, s, v)
  {
    var b := (1.0 + root) / 2.0;
    RootsHaveFlux(g, v, root);
    HigherFluxBelow(a, b, v);
    ShockSpeedFacts(a, b, v);
  }

  /** A jump from the root q* = (1 - root)/2 of f(q, v) = g up to density b, with g
      below the flux of b, is an admissible right-going shock at the speed the
      solver computes. */
  lemma ShockFromLowerRoot(b: real, g: real, v: real, root: real)
    requires v > 0.0 && 0.0 <= root && root * root == 1.0 - 4.0 * g / v && g < Flux(b, v)
    ensures (1.0 - root) / 2.0 <= 0.5 && (1.0 - root) / 2.0 < b
    ensures Flux((1.0 - root) / 2.0, v) == g
    ensures var s := (Flux(b, v) - g) / (b - (1.0 - root) / 2.0);
      0.0 < s && ShockAdmissible((1.0 - root) / 2.0, b, s, v)
  {
    var a := (1.0 - root) / 2.0;
    RootsHaveFlux(g, v, root);
    HigherFluxAbove(b, a, v);
    ShockSpeedFacts(a, b, v);
  }

  // The wave shapes, checked once each over their scalars.

  lemma ShockContactShape(ql: real, qStar: real, qr: real, s: real,
                          vl: real, vr: real, profile: seq<Term>)
    requires s < 0.0 && ShockAdmissible(ql, qStar, s, vl)
    requires Flux(qStar, vl) == Flux(qr, vr)
    requires Evaluable(profile)
    ensures Admissible(Solution([ql, qStar, qr], [Point(s), Point(0.0)], [Shock, Contact], profile),
                       ql, qr, vl, vr)
  {
    var sol := Solution([ql, qStar, qr], [Point(s), Point(0.0)], [Shock, Contact], profile);
    assert SideLimit(sol.speeds[0], vl, vr) == vl;
  }

  lemma ContactShockShape(ql: real, qStar: real, qr: real, s: real,
                          vl: real, vr: real, profile: seq<Term>)
    requires 0.0 < s && ShockAdmissible(qStar, qr, s, vr)
    requires Flux(ql, vl) == Flux(qStar, vr)
    requires Evaluable(profile)
    ensures Admissible(Solution([ql, qStar, qr], [Point(0.0), Point(s)], [Contact, Shock], profile),
                       ql, qr, vl, vr)
  {
    var sol := Solution([ql, qStar, qr], [Point(0.0), Point(s)], [Contact, Shock], profile);
    assert SideLimit(sol.speeds[1], vl, vr) == vr;
  }

  lemma RarefContactShape(ql: real, qStar: real, qr: real, cl: real, cStar: real,
                          vl: real, vr: real, profile: seq<Term>)
    requires cl < 0.0 && cl <= cStar <= 0.0
    requires cl == CharSpeed(ql, vl) && cStar == CharSpeed(qStar, vl)
    requires Flux(qStar, vl) == Flux(qr, vr)
    requires Evaluable(profile)
    ensures Admissible(Solution([ql, qStar, qr], [Interval(cl, cStar), Point(0.0)], [Raref, Contact], profile),
                       ql, qr, vl, vr)
  {
    var sol := Solution([ql, qStar, qr], [Interval(cl, cStar), Point(0.0)], [Raref, Contact], profile);
    assert SideLimit(sol.speeds[0], vl, vr) == vl;
  }

  lemma ContactRarefShape(ql: real, qStar: real, qr: real, cStar: real, cr: real,
                          vl: real, vr: real, profile: seq<Term>)
    requires 0.0 <= cStar <= cr
    requires cStar == CharSpeed(qStar, vr) && cr == CharSpeed(qr, vr)
    requires Flux(ql, vl) == Flux(qStar, vr)
    requires Evaluable(profile)
    ensures Admissible(Solution([ql, qStar, qr], [Point(0.0), Interval(cStar, cr)], [Contact, Raref], profile),
                       ql, qr, vl, vr)
  {
    var sol := Solution([ql, qStar, qr], [Point(0.0), Interval(cStar, cr)], [Contact, Raref], profile);
    assert SideLimit(sol.speeds[1], vl, vr) == vr;
  }

  lemma ShockContactRarefShape(ql: real, qStar: real, qr: real, s: real, cr: real,
                               vl: real, vr: real, profile: seq<Term>)
    requires s < 0.0 && ShockAdmissible(ql, qStar, s, vl)
    requires Flux(qStar, vl) == Flux(0.5, vr)
    requires 0.0 <= cr && cr == CharSpeed(qr, vr)
    requires Evaluable(profile)
    ensures Admissible(Solution([ql, qStar, 0.5, qr], [Point(s), Point(0.0), Interval(0.0, cr)],
                                [Shock, Contact, Raref], profile), ql, qr, vl, vr)
  {
    var sol := Solution([ql, qStar, 0.5, qr], [Point(s), Point(0.0), Interval(0.0, cr)],
                        [Shock, Contact, Raref], profile);
    assert CharSpeed(0.5, vr) == 0.0;
    assert SideLimit(sol.speeds[0], vl, vr) == vl;
    assert SideLimit(sol.speeds[2], vl, vr) == vr;
  }

  lemma RarefContactShockShape(ql: real, qStar: real, qr: real, s: real, cl: real,
                               vl: real, vr: real, profile: seq<Term>)
    requires vl > 0.0
    requires 0.0 < s && ShockAdmissible(qStar, qr, s, vr)
    requires Flux(0.5, vl) == Flux(qStar, vr)
    requires cl <= 0.0 && cl == CharSpeed(ql, vl)
    requires Evaluable(profile)
    ensures Admissible(Solution([ql, 0.5, qStar, qr], [Interval(cl, 0.0), Point(0.0), Point(s)],
                                [Raref, Contact, Shock], profile), ql, qr, vl, vr)
  {
    var sol := Solution([ql, 0.5, qStar, qr], [Interval(cl, 0.0), Point(0.0), Point(s)],
                        [Raref, Contact, Shock], profile);
    assert CharSpeed(0.5, vl) == 0.0;
    if cl == 0.0 {
      CharSpeedSign(ql, vl);
      assert CharSpeed(0.5, vr) == 0.0;
    }
    assert SideLimit(sol.speeds[2], vl, vr) == vr;
  }

  lemma RarefContactRarefShape(ql: real, qa: real, qb: real, qr: real,
                               cl: real, ca: real, cb: real, cr: real,
                               vl: real, vr: real, profile: seq<Term>)
    requires vl > 0.0 && vr > 0.0
    requires cl <= ca <= 0.0 <= cb <= cr
    requires cl < 0.0 || (ql == 0.5 && qa == 0.5)
    requires cl == CharSpeed(ql, vl) && ca == CharSpeed(qa, vl)
    requires cb == CharSpeed(qb, vr) && cr == CharSpeed(qr, vr)
    requires Flux(qa, vl) == Flux(qb, vr)
    requires Evaluable(profile)
    ensures Admissible(Solution([ql, qa, qb, qr], [Interval(cl, ca), Point(0.0), Interval(cb, cr)],
                                [Raref, Contact, Raref], profile), ql, qr, vl, vr)
  {
    var sol := Solution([ql, qa, qb, qr], [Interval(cl, ca), Point(0.0), Interval(cb, cr)],
                        [Raref, Contact, Raref], profile);
    if cl == 0.0 {
      assert CharSpeed(0.5, vr) == 0.0;
      assert SideLimit(sol.speeds[0], vl, vr) == vr;
    } else {
      assert SideLimit(sol.speeds[0], vl, vr) == vl;
    }
    assert SideLimit(sol.speeds[2], vl, vr) == vr;
  }

  /** Transonic case with v_r < v_l: given q_l and q* both at or above 1/2, with q*
      carrying at least q_l's flux under v_l, q* <= q_l. */
  lemma TransonicStarBelowLeft(ql: real, qStar: real, vl: real, f: real)
    requires vl > 0.0 && 0.5 <= qStar && ql >= 0.5
    requires Flux(ql, vl) <= f && Flux(qStar, vl) == f
    ensures qStar <= ql
  {
    if ql < qStar {
      FluxDecreasingAbovePeak(ql, qStar, vl);
    }
  }

  /** Transonic case with v_r > v_l: given q_r and q* both at or below 1/2, with q*
      carrying at least q_r's flux under v_r, q_r <= q*. */
  lemma TransonicStarAboveRight(qr: real, qStar: real, vr: real, f: real)
    requires vr > 0.0 && qStar <= 0.5 && qr <= 0.5
    requires Flux(qr, vr) <= f && Flux(qStar, vr) == f
    ensures qr <= qStar
  {
    if qStar < qr {
      FluxIncreasingBelowPeak(qStar, qr, vr);
    }
  }

  /** With positive speed limits some guard always holds: the failure branch of the
      chain is unreachable, for any densities. */
  lemma ClassifyTotal(ql: real, qr: real, vl: real, vr: real)
    requires vl > 0.0 && vr > 0.0
    ensures Classify(ql, qr, vl, vr) != Unclassified
  {
    FluxAtMostPeak(ql, vl);
    FluxAtMostPeak(qr, vr);
  }

  /** Hence the solver never reports "Unhandled state!" for positive speed limits. */
  lemma SolveNeverFails(ql: real, qr: real, vl: real, vr: real, sqrt: real -> real)
    requires vl > 0.0 && vr > 0.0 && IsSqrt(sqrt)
    ensures Solve(ql, qr, vl, vr, sqrt).Solved?
  {
    ClassifyTotal(ql, qr, vl, vr);
  }

  /** The guards tried after the equal-flux test and before the transonic one hold
      at most one at a time, so their order among themselves does not matter. */
  lemma MiddleGuardsExclusive(ql: real, qr: real, vl: real, vr: real)
    requires vl > 0.0 && vr > 0.0
    ensures (if LeftShockGuard(ql, qr, vl, vr) then 1 else 0)
          + (if RightShockGuard(ql, qr, vl, vr) then 1 else 0)
          + (if ShockRarefGuard(ql, qr, vl, vr) then 1 else 0)
          + (if RarefShockGuard(ql, qr, vl, vr) then 1 else 0)
          + (if LeftRarefGuard(ql, qr, vl, vr) then 1 else 0)
          + (if RightRarefGuard(ql, qr, vl, vr) then 1 else 0) <= 1
  {
    FluxAtMostPeak(ql, vl);
    FluxAtMostPeak(qr, vr);
  }

  /** The transonic guard overlaps earlier guards only on boundaries, where the
      earlier branch wins: equal fluxes, q_r == 1/2 (left rarefaction) and
      q_l == 1/2 (right rarefaction). */
  lemma TransonicOverlaps(ql: real, qr: real, vl: real, vr: real)
    requires TransonicGuard(ql, qr, vl, vr)
    ensures !LeftShockGuard(ql, qr, vl, vr) && !RightShockGuard(ql, qr, vl, vr)
    ensures !ShockRarefGuard(ql, qr, vl, vr) && !RarefShockGuard(ql, qr, vl, vr)
    ensures LeftRarefGuard(ql, qr, vl, vr) ==> qr == 0.5 && Classify(ql, qr, vl, vr) == LeftRaref
    ensures RightRarefGuard(ql, qr, vl, vr) ==> ql == 0.5 && Classify(ql, qr, vl, vr) == RightRaref
    ensures Classify(ql, qr, vl, vr) in {ContactOnly, LeftRaref, RightRaref, TransonicLeftStar, TransonicRightStar, TransonicEqual}
  {
  }
}
