/** What the solver's evaluator (reval) returns: the exact state in every open gap
    between waves, the rarefaction profile strictly inside every fan, the sums it
    produces on the boundaries where two indicator terms both hold, and the
    range of the states for physical densities. */
module Profiles {
  import opened TrafficFlux
  import opened Waves
  import opened VariableSpeedRiemann

  /** xi lies strictly between wave i-1 and wave i (with no left wave for i = 0 and
      no right wave for the last state). */
  predicate InGap(sol: Solution, i: int, xi: real)
    requires WellShaped(sol)
  {
    && 0 <= i < |sol.states|
    && (i == 0 || sol.speeds[i - 1].Max() < xi)
    && (i == |sol.speeds| || xi < sol.speeds[i].Min())
  }

  /** xi lies strictly inside the range of fan i. */
  predicate InFan(sol: Solution, i: int, xi: real)
    requires WellShaped(sol)
  {
    && 0 <= i < |sol.speeds|
    && sol.waveTypes[i] == Raref
    && sol.speeds[i].lo < xi < sol.speeds[i].hi
  }

  /** The evaluator gives the state of the gap in every open gap and the fan profile
      of its side strictly inside every fan. */
  ghost predicate ProfileExact(sol: Solution, vl: real, vr: real)
    requires WellShaped(sol) && Evaluable(sol.profile) && vl != 0.0 && vr != 0.0
  {
    && (forall i, xi :: InGap(sol, i, xi) ==> Eval(sol.profile, xi) == sol.states[i])
    && (forall i, xi :: InFan(sol, i, xi) ==>
          Eval(sol.profile, xi) == FanDensity(SideLimit(sol.speeds[i], vl, vr), xi))
  }

  lemma LeftShockProfile(ql: real, qr: real, vl: real, vr: real, sqrt: real -> real)
    requires vl > 0.0 && vr > 0.0 && IsSqrt(sqrt) && LeftShockGuard(ql, qr, vl, vr)
    ensures ProfileExact(LeftShockSolution(ql, qr, vl, vr, sqrt), vl, vr)
  {
    var sol := LeftShockSolution(ql, qr, vl, vr, sqrt);
    forall i, xi | InGap(sol, i, xi) ensures Eval(sol.profile, xi) == sol.states[i] {
      EvalOneActive(sol.profile, i, xi);
    }
  }

  lemma RightShockProfile(ql: real, qr: real, vl: real, vr: real, sqrt: real -> real)
    requires vl > 0.0 && vr > 0.0 && IsSqrt(sqrt) && RightShockGuard(ql, qr, vl, vr)
    ensures ProfileExact(RightShockSolution(ql, qr, vl, vr, sqrt), vl, vr)
  {
    var sol := RightShockSolution(ql, qr, vl, vr, sqrt);
    forall i, xi | InGap(sol, i, xi) ensures Eval(sol.profile, xi) == sol.states[i] {
      EvalOneActive(sol.profile, i, xi);
    }
  }

  lemma ShockRarefProfile(ql: real, qr: real, vl: real, vr: real, sqrt: real -> real)
    requires vl > 0.0 && vr > 0.0 && IsSqrt(sqrt) && ShockRarefGuard(ql, qr, vl, vr)
    ensures ProfileExact(ShockRarefSolution(ql, qr, vl, vr, sqrt), vl, vr)
  {
    var sol := ShockRarefSolution(ql, qr, vl, vr, sqrt);
    forall i, xi | InGap(sol, i, xi) ensures Eval(sol.profile, xi) == sol.states[i] {
      EvalOneActive(sol.profile, i, xi);
    }
    forall i, xi | InFan(sol, i, xi)
      ensures Eval(sol.profile, xi) == FanDensity(SideLimit(sol.speeds[i], vl, vr), xi)
    {
      EvalOneActive(sol.profile, 2, xi);
    }
  }

  lemma RarefShockProfile(ql: real, qr: real, vl: real, vr: real, sqrt: real -> real)
    requires vl > 0.0 && vr > 0.0 && IsSqrt(sqrt) && RarefShockGuard(ql, qr, vl, vr)
    ensures ProfileExact(RarefShockSolution(ql, qr, vl, vr, sqrt), vl, vr)
  {
    var sol := RarefShockSolution(ql, qr, vl, vr, sqrt);
    forall i, xi | InGap(sol, i, xi) ensures Eval(sol.profile, xi) == sol.states[i] {
      EvalOneActive(sol.profile, i, xi);
    }
    forall i, xi | InFan(sol, i, xi)
      ensures Eval(sol.profile, xi) == FanDensity(SideLimit(sol.speeds[i], vl, vr), xi)
    {
      EvalOneActive(sol.profile, 1, xi);
    }
  }

  lemma LeftRarefProfile(ql: real, qr: real, vl: real, vr: real, sqrt: real -> real)
    requires vl > 0.0 && vr > 0.0 && IsSqrt(sqrt) && LeftRarefGuard(ql, qr, vl, vr)
    ensures ProfileExact(LeftRarefSolution(ql, qr, vl, vr, sqrt), vl, vr)
  {
    var sol := LeftRarefSolution(ql, qr, vl, vr, sqrt);
    forall i, xi | InGap(sol, i, xi) ensures Eval(sol.profile, xi) == sol.states[i] {
      EvalOneActive(sol.profile, if i == 0 then 0 else i + 1, xi);
    }
    forall i, xi | InFan(sol, i, xi)
      ensures Eval(sol.profile, xi) == FanDensity(SideLimit(sol.speeds[i], vl, vr), xi)
    {
      EvalOneActive(sol.profile, 1, xi);
    }
  }

  lemma RightRarefProfile(ql: real, qr: real, vl: real, vr: real, sqrt: real -> real)
    requires vl > 0.0 && vr > 0.0 && IsSqrt(sqrt) && RightRarefGuard(ql, qr, vl, vr)
    ensures ProfileExact(RightRarefSolution(ql, qr, vl, vr, sqrt), vl, vr)
  {
    var sol := RightRarefSolution(ql, qr, vl, vr, sqrt);
    forall i, xi | InGap(sol, i, xi) ensures Eval(sol.profile, xi) == sol.states[i] {
      EvalOneActive(sol.profile, if i == 2 then 3 else i, xi);
    }
    forall i, xi | InFan(sol, i, xi)
      ensures Eval(sol.profile, xi) == FanDensity(SideLimit(sol.speeds[i], vl, vr), xi)
    {
      EvalOneActive(sol.profile, 2, xi);
    }
  }

  lemma TransonicLeftStarProfile(ql: real, qr: real, vl: real, vr: real, sqrt: real -> real)
    requires vl > 0.0 && vr > 0.0 && IsSqrt(sqrt) && TransonicGuard(ql, qr, vl, vr) && vr < vl
    ensures ProfileExact(TransonicLeftStarSolution(ql, qr, vl, vr, sqrt), vl, vr)
  {
    var sol := TransonicLeftStarSolution(ql, qr, vl, vr, sqrt);
    forall i, xi | InGap(sol, i, xi) ensures Eval(sol.profile, xi) == sol.states[i] {
      EvalOneActive(sol.profile, if i == 0 then 0 else i + 1, xi);
    }
    forall i, xi | InFan(sol, i, xi)
      ensures Eval(sol.profile, xi) == FanDensity(SideLimit(sol.speeds[i], vl, vr), xi)
    {
      EvalOneActive(sol.profile, i + 1, xi);
    }
  }

  lemma TransonicRightStarProfile(ql: real, qr: real, vl: real, vr: real, sqrt: real -> real)
    requires vl > 0.0 && vr > 0.0 && IsSqrt(sqrt) && TransonicGuard(ql, qr, vl, vr) && vr > vl
    ensures ProfileExact(TransonicRightStarSolution(ql, qr, vl, vr, sqrt), vl, vr)
  {
    var sol := TransonicRightStarSolution(ql, qr, vl, vr, sqrt);
    forall i, xi | InGap(sol, i, xi) ensures Eval(sol.profile, xi) == sol.states[i] {
      if i == 0 {
        EvalOneActive(sol.profile, 0, xi);
      } else if i == 2 {
        EvalOneActive(sol.profile, 2, xi);
      } else if i == 3 {
        EvalOneActive(sol.profile, 4, xi);
      }
    }
    forall i, xi | InFan(sol, i, xi)
      ensures Eval(sol.profile, xi) == FanDensity(SideLimit(sol.speeds[i], vl, vr), xi)
    {
      if i == 0 {
        EvalOneActive(sol.profile, 1, xi);
      } else {
        EvalOneActive(sol.profile, 3, xi);
      }
    }
  }

  lemma TransonicEqualProfile(ql: real, qr: real, vl: real, vr: real)
    requires vl > 0.0 && TransonicGuard(ql, qr, vl, vr) && vr == vl
    ensures ProfileExact(TransonicEqualSolution(ql, qr, vl, vr), vl, vr)
  {
    var sol := TransonicEqualSolution(ql, qr, vl, vr);
    forall i, xi | InGap(sol, i, xi) ensures Eval(sol.profile, xi) == sol.states[i] {
      EvalOneActive(sol.profile, 2 * i, xi);
    }
    forall i, xi | InFan(sol, i, xi)
      ensures Eval(sol.profile, xi) == FanDensity(SideLimit(sol.speeds[i], vl, vr), xi)
    {
      EvalOneActive(sol.profile, 1, xi);
    }
  }

  /** Every pattern but the lone contact evaluates exactly: q_l left of the leftmost
      wave, q_r right of the rightmost one, the intermediate states in between and
      the fan profile inside each fan. */
  lemma SolveProfileExact(ql: real, qr: real, vl: real, vr: real, sqrt: real -> real)
    requires vl > 0.0 && vr > 0.0 && IsSqrt(sqrt)
    requires Classify(ql, qr, vl, vr) != ContactOnly
    ensures Solve(ql, qr, vl, vr, sqrt).Solved?
    ensures ProfileExact(Solve(ql, qr, vl, vr, sqrt).solution, vl, vr)
  {
    ClassifyTotal(ql, qr, vl, vr);
    match Classify(ql, qr, vl, vr)
    case LeftShock => LeftShockProfile(ql, qr, vl, vr, sqrt);
    case RightShock => RightShockProfile(ql, qr, vl, vr, sqrt);
    case ShockRaref => ShockRarefProfile(ql, qr, vl, vr, sqrt);
    case RarefShock => RarefShockProfile(ql, qr, vl, vr, sqrt);
    case LeftRaref => LeftRarefProfile(ql, qr, vl, vr, sqrt);
    case RightRaref => RightRarefProfile(ql, qr, vl, vr, sqrt);
    case TransonicLeftStar => TransonicLeftStarProfile(ql, qr, vl, vr, sqrt);
    case TransonicRightStar => TransonicRightStarProfile(ql, qr, vl, vr, sqrt);
    case TransonicEqual => TransonicEqualProfile(ql, qr, vl, vr);
  }

  /** With equal fluxes the evaluator returns q_l for every xi, on both sides of the
      contact, even when q_r differs from q_l. */
  lemma ContactOnlyEvaluatesLeft(ql: real, qr: real, vl: real, vr: real, sqrt: real -> real, xi: real)
    requires vl > 0.0 && vr > 0.0 && IsSqrt(sqrt)
    requires Classify(ql, qr, vl, vr) == ContactOnly
    ensures Solve(ql, qr, vl, vr, sqrt).Solved?
    ensures Eval(Solve(ql, qr, vl, vr, sqrt).solution.profile, xi) == ql
  {
    EvalOneActive(Solve(ql, qr, vl, vr, sqrt).solution.profile, 0, xi);
  }

  /** Left-going shock at xi = 0: two indicator terms hold and the evaluator returns q* + q_r. */
  lemma LeftShockOverlap(ql: real, qr: real, vl: real, vr: real, sqrt: real -> real)
    requires vl > 0.0 && vr > 0.0 && IsSqrt(sqrt) && LeftShockGuard(ql, qr, vl, vr)
    ensures var sol := LeftShockSolution(ql, qr, vl, vr, sqrt);
      Eval(sol.profile, 0.0) == sol.states[1] + qr
  {
    var sol := LeftShockSolution(ql, qr, vl, vr, sqrt);
    EvalTwoActive(sol.profile, 1, 2, 0.0);
  }

  /** Shock plus rarefaction with q_r = 1/2: the fan is empty (c_r = 0), and at xi = 0
      the constant q* term and the constant q_r term both hold, so the evaluator
      returns q* + 1/2. */
  lemma ShockRarefOverlap(ql: real, vl: real, vr: real, sqrt: real -> real)
    requires vl > 0.0 && vr > 0.0 && IsSqrt(sqrt) && ShockRarefGuard(ql, 0.5, vl, vr)
    ensures var sol := ShockRarefSolution(ql, 0.5, vl, vr, sqrt);
      Eval(sol.profile, 0.0) == sol.states[1] + 0.5
  {
    var sol := ShockRarefSolution(ql, 0.5, vl, vr, sqrt);
    assert CharSpeed(0.5, vr) == 0.0;
    EvalTwoActive(sol.profile, 1, 3, 0.0);
  }

  /** The shock-plus-rarefaction overlap is reachable, e.g. at q_l = q_r = 1/2 with
      v_l = 2 and v_r = 1. */
  lemma ShockRarefOverlapReachable()
    ensures Classify(0.5, 0.5, 2.0, 1.0) == ShockRaref
  {
    assert Flux(0.5, 2.0) == 0.5;
  }

  /** Right-going shock at xi = shock speed: the evaluator returns q* + q_r. */
  lemma RightShockOverlap(ql: real, qr: real, vl: real, vr: real, sqrt: real -> real)
    requires vl > 0.0 && vr > 0.0 && IsSqrt(sqrt) && RightShockGuard(ql, qr, vl, vr)
    ensures var sol := RightShockSolution(ql, qr, vl, vr, sqrt);
      Eval(sol.profile, sol.speeds[1].at) == sol.states[1] + qr
  {
    var sol := RightShockSolution(ql, qr, vl, vr, sqrt);
    EvalTwoActive(sol.profile, 1, 2, sol.speeds[1].at);
  }

  /** Left-going rarefaction at xi = 0: the evaluator returns q* + q_r (through the
      fan term when q* = 1/2, through the constant q* term otherwise). */
  lemma LeftRarefOverlap(ql: real, qr: real, vl: real, vr: real, sqrt: real -> real)
    requires vl > 0.0 && vr > 0.0 && IsSqrt(sqrt) && LeftRarefGuard(ql, qr, vl, vr)
    ensures var sol := LeftRarefSolution(ql, qr, vl, vr, sqrt);
      Eval(sol.profile, 0.0) == sol.states[1] + qr
  {
    var sol := LeftRarefSolution(ql, qr, vl, vr, sqrt);
    if sol.speeds[0].hi == 0.0 {
      FanMeetsNeighbours(sol, ql, qr, vl, vr, 0);
      EvalTwoActive(sol.profile, 1, 3, 0.0);
    } else {
      EvalTwoActive(sol.profile, 2, 3, 0.0);
    }
  }

  /** Right-going rarefaction at xi = c_r: the fan and the constant q_r term both hold
      and the evaluator returns 2 q_r. */
  lemma RightRarefOverlap(ql: real, qr: real, vl: real, vr: real, sqrt: real -> real)
    requires vl > 0.0 && vr > 0.0 && IsSqrt(sqrt) && RightRarefGuard(ql, qr, vl, vr)
    ensures Eval(RightRarefSolution(ql, qr, vl, vr, sqrt).profile, CharSpeed(qr, vr)) == 2.0 * qr
  {
    var sol := RightRarefSolution(ql, qr, vl, vr, sqrt);
    FanDensityAtCharSpeed(qr, vr);
    EvalTwoActive(sol.profile, 2, 3, CharSpeed(qr, vr));
  }

  /** Across a contact the flux is conserved, so one neighbour is a physical
      density exactly when the other is. */
  lemma ContactPartnerInUnit(sol: Solution, ql: real, qr: real, vl: real, vr: real, k: int)
    requires Admissible(sol, ql, qr, vl, vr) && vl > 0.0 && vr > 0.0
    requires 0 <= k < |sol.waveTypes| && sol.waveTypes[k] == Contact
    ensures 0.0 <= sol.states[k] <= 1.0 <==> 0.0 <= sol.states[k + 1] <= 1.0
  {
    assert Flux(sol.states[k], vl) == Flux(sol.states[k + 1], vr);
    FluxNonnegativeIffUnit(sol.states[k], vl);
    FluxNonnegativeIffUnit(sol.states[k + 1], vr);
  }

  /** For physical densities every state the solver lists is a density in [0, 1]:
      each q* shares its flux with a physical density across the contact. */
  lemma StatesInUnitInterval(ql: real, qr: real, vl: real, vr: real, sqrt: real -> real)
    requires vl > 0.0 && vr > 0.0 && IsSqrt(sqrt)
    requires 0.0 <= ql <= 1.0 && 0.0 <= qr <= 1.0
    ensures Solve(ql, qr, vl, vr, sqrt).Solved?
    ensures var states := Solve(ql, qr, vl, vr, sqrt).solution.states;
      forall i :: 0 <= i < |states| ==> 0.0 <= states[i] <= 1.0
  {
    ClassifyTotal(ql, qr, vl, vr);
    var p := Classify(ql, qr, vl, vr);
    var sol := Solve(ql, qr, vl, vr, sqrt).solution;
    forall i | 0 <= i < |sol.states| ensures 0.0 <= sol.states[i] <= 1.0 {
      if 0 < i < |sol.states| - 1 {
        if p in {LeftShock, ShockRaref, LeftRaref, TransonicLeftStar} && i == 1 {
          ContactPartnerInUnit(sol, ql, qr, vl, vr, 1);
        } else if p in {RightShock, RightRaref} {
          ContactPartnerInUnit(sol, ql, qr, vl, vr, 0);
        } else if p in {RarefShock, TransonicRightStar} && i == 2 {
          ContactPartnerInUnit(sol, ql, qr, vl, vr, 1);
        }
      }
    }
  }
}
