# Exact Riemann solver for LWR traffic with a variable speed limit

This project models the exact Riemann solver for the Lighthill-Whitham-Richards
traffic model in which the speed limit jumps from `v_l` to `v_r` at `x = 0`
(`exact_riemann_solution` in `exact_solvers/traffic_variable_speed.py`).
The flux is `f(q, v) = v q (1 - q)` and the characteristic speed is `c(q, v) = v (1 - 2q)`.

Given the densities `q_l` and `q_r` and the speed limits `v_l` and `v_r`, the solver
works through an ordered chain of guards to pick one of ten wave patterns:

- contact only;
- left-going shock;
- right-going shock;
- shock plus rarefaction;
- rarefaction plus shock;
- left-going rarefaction;
- right-going rarefaction;
- three transonic sub-cases, for `v_r < v_l`, `v_r > v_l` and `v_r == v_l`.

If no guard holds, it fails with "Unhandled state!". For the chosen pattern it
returns four things:

- the list of states;
- one speed per wave (a point, or an interval for a fan);
- one type per wave;
- an evaluator `reval` that maps each similarity coordinate `xi = x/t` to a density as a
  sum of indicator-weighted terms.

The Dafny files follow that structure:

- `flux.dfy` (module `TrafficFlux`): the flux, the characteristic speed and the
  fan profile `(1 - xi/v)/2`. It also proves the algebra the branches rely on: where the flux is
  monotone, its peak `v/4` at `q = 1/2`, that both roots `(1 ± s)/2` of `f(q, v) = g`
  carry the flux `g`, and the Rankine-Hugoniot speed and Lax's condition for a shock.
- `waves.dfy` (module `Waves`): the output of the solver. The evaluator is a list of
  `Term`s. Each term has a lower bound (`<` or `<=`), an upper bound (`<` or `<=`)
  and a density (a constant or the fan profile). `Eval` sums the active terms, just
  as the source's indicator products do. `Admissible` collects what every
  solution satisfies:
  - the end states;
  - one speed and one type per wave;
  - speeds ordered and non-crossing;
  - flux conserved across the contact;
  - every shock satisfying Rankine-Hugoniot and the entropy condition;
  - every fan spanning exactly the characteristic speeds of its two states.
- `riemann.dfy` (module `VariableSpeedRiemann`): the guards, the classifier
  `Classify`, one builder per branch and `Solve`. It proves which root of
  `f(q, v) = g` each branch takes and on which side of 1/2 that root lies.
- `profile.dfy` (module `Profiles`): what the evaluator returns in open gaps
  between waves and strictly inside fans, the sums it returns on the boundaries
  where two terms both hold, and the range of the states.

`np.sqrt` is a parameter `sqrt: real -> real`. Every function that takes it requires
`IsSqrt(sqrt)`: `sqrt(x)` is non-negative and squares to `x` for every `x >= 0`.
Every square root the solver takes goes through `Root`, which demands a
non-negative argument. So the builders prove that each branch's radicand is
non-negative.

Two facts about the guard chain are proved:

- For positive speed limits the chain is exhaustive for every real `q_l` and `q_r`:
  `Solve` never reaches "Unhandled state!".
- The six guards tried between the equal-flux test and the transonic test hold
  at most one at a time.

Three facts about the evaluator and the wave list are kept exactly as the code has them:

- The evaluator's indicator terms overlap at five boundaries, one of them only when
  `q_r = 1/2`. There two terms hold at once, and the evaluator returns their sum:
  - left-going shock, at `xi = 0` (lines 34-35): `q* + q_r` (`Profiles.LeftShockOverlap`);
  - right-going shock, at `xi` equal to the shock speed (lines 48-49): `q* + q_r`
    (`Profiles.RightShockOverlap`);
  - shock plus rarefaction with `q_r = 1/2`, at `xi = 0`, where the fan is empty because
    `c_r = 0` (lines 62 and 64): `q* + 1/2` (`Profiles.ShockRarefOverlap`);
  - left-going rarefaction, at `xi = 0` (lines 93-94): `q* + q_r` (`Profiles.LeftRarefOverlap`);
  - right-going rarefaction, at `xi = c_r` (lines 108-109): `2 q_r` (`Profiles.RightRarefOverlap`).
- The transonic branch with `v_r == v_l` (lines 146-149) returns a single rarefaction and
  no contact; every other branch has exactly one contact. `Solve` states that exception.
- The contact-only branch evaluates to `q_l` at every `xi`, also when `q_r != q_l`
  (`Profiles.ContactOnlyEvaluatesLeft`).

## Model

| member | source | states |
|---|---|---|
| TrafficFlux.Flux | exact_solvers/traffic_variable_speed.py:10 | the flux v q (1 - q); its shape is proved by FluxIncreasingBelowPeak, FluxDecreasingAbovePeak, FluxAtMostPeak and FluxNonnegativeIffUnit |
| TrafficFlux.CharSpeed | exact_solvers/traffic_variable_speed.py:11 | the characteristic speed v (1 - 2q); its sign and monotonicity are proved by CharSpeedSign and CharSpeedDecreasing, and that it inverts the fan profile by FanDensity |
| TrafficFlux.FanDensity | exact_solvers/traffic_variable_speed.py:63 | the fan profile (1 - xi/v)/2 is the density whose characteristic speed is xi |
| TrafficFlux.FanDensityAtCharSpeed | exact_solvers/traffic_variable_speed.py:91-92 | the fan profile at xi = c(q, v) is q, so a fan starting at c_l continues q_l |
| TrafficFlux.Root | exact_solvers/traffic_variable_speed.py:26 | a square root is taken only of a non-negative number and is a non-negative number squaring to it |
| TrafficFlux.FluxIncreasingBelowPeak | exact_solvers/traffic_variable_speed.py:10 | the flux strictly increases on densities up to 1/2 |
| TrafficFlux.FluxDecreasingAbovePeak | exact_solvers/traffic_variable_speed.py:10 | the flux strictly decreases on densities from 1/2 on |
| TrafficFlux.FluxAtMostPeak | exact_solvers/traffic_variable_speed.py:52 | the flux never exceeds v/4, and equals it exactly at q = 1/2 (the threshold each guard compares against) |
| TrafficFlux.HigherFluxBelow | exact_solvers/traffic_variable_speed.py:24-26 | a density with more flux than some density at or above 1/2 lies strictly below it |
| TrafficFlux.HigherFluxAbove | exact_solvers/traffic_variable_speed.py:38-40 | a density with more flux than some density at or below 1/2 lies strictly above it |
| TrafficFlux.FluxNonnegativeIffUnit | exact_solvers/traffic_variable_speed.py:10 | the flux is non-negative if and only if the density is in [0, 1] |
| TrafficFlux.CharSpeedSign | exact_solvers/traffic_variable_speed.py:11 | the characteristic speed is negative exactly above 1/2 and zero exactly at 1/2 |
| TrafficFlux.CharSpeedDecreasing | exact_solvers/traffic_variable_speed.py:11 | the characteristic speed strictly decreases in the density |
| TrafficFlux.RootsHaveFlux | exact_solvers/traffic_variable_speed.py:26 | both (1 + s)/2 and (1 - s)/2, with s = sqrt(1 - 4f/v), carry flux f under v |
| TrafficFlux.RadicandNonnegative | exact_solvers/traffic_variable_speed.py:82-84 | a flux at most v/4 makes 1 - 4f/v non-negative |
| TrafficFlux.RatioRadicandPositive | exact_solvers/traffic_variable_speed.py:54 | for 0 < a < b the radicand 1 - a/b lies strictly between 0 and 1 |
| TrafficFlux.ShockSpeedFacts | exact_solvers/traffic_variable_speed.py:28 | the Rankine-Hugoniot speed conserves flux, lies strictly between the characteristic speeds of its two sides, and is negative exactly when the flux drops across it |
| Waves.Eval | exact_solvers/traffic_variable_speed.py:33-35 | the evaluator at one point is the sum over all terms of the term's density where its indicators hold and 0 elsewhere (Active, Weight); EvalNoneActive, EvalOneActive and EvalTwoActive state what that sum is |
| Waves.SideLimit | exact_solvers/traffic_variable_speed.py:193-201 | a wave whose slowest speed is negative is on the v_l side, any other on the v_r side; ContactSeparatesSides shows that this puts every shock before the contact on the v_l side and every wave after it on the v_r side |
| Waves.Evaluate | exact_solvers/traffic_variable_speed.py:31-36 | the evaluator returns one density per coordinate, each the evaluation at that coordinate alone |
| Waves.EvalNoneActive | exact_solvers/traffic_variable_speed.py:33-35 | with no indicator holding, the sum of terms is 0 |
| Waves.EvalOneActive | exact_solvers/traffic_variable_speed.py:33-35 | with exactly one indicator holding, the sum of terms is that term's density |
| Waves.EvalTwoActive | exact_solvers/traffic_variable_speed.py:33-35 | with exactly two indicators holding, the sum of terms is the sum of their densities |
| Waves.ContactSeparatesSides | exact_solvers/traffic_variable_speed.py:201 | in an admissible solution a wave before the contact has speeds at most 0 (a shock strictly negative, on the v_l side), a wave after it speeds at least 0 (a shock strictly positive, on the v_r side) |
| Waves.FanMeetsNeighbours | exact_solvers/traffic_variable_speed.py:61-64 | a fan's profile equals its left state at its slowest speed and its right state at its fastest, and the density does not increase across it |
| VariableSpeedRiemann.Classify | exact_solvers/traffic_variable_speed.py:18-159 | the guards tried in source order, the first that holds names the branch; ClassifyTotal, MiddleGuardsExclusive and TransonicOverlaps state what is proved about it |
| VariableSpeedRiemann.ContactOnlySolution | exact_solvers/traffic_variable_speed.py:18-22 | equal fluxes give states [q_l, q_r] and one contact, admissible |
| VariableSpeedRiemann.LeftShockSolution | exact_solvers/traffic_variable_speed.py:24-36 | shock then contact; the radicand 1 - 4f_r/v_l is non-negative; q* is the root at or above 1/2, differs from q_l, and the solution is admissible |
| VariableSpeedRiemann.RightShockSolution | exact_solvers/traffic_variable_speed.py:38-50 | contact then shock; the radicand 1 - 4f_l/v_r is non-negative; q* is the root at or below 1/2, differs from q_r, and the solution is admissible |
| VariableSpeedRiemann.ShockRarefSolution | exact_solvers/traffic_variable_speed.py:52-65 | shock, contact, fan; 1 - v_r/v_l is non-negative; q* at or above 1/2 and different from q_l; the third state is 1/2; admissible |
| VariableSpeedRiemann.RarefShockSolution | exact_solvers/traffic_variable_speed.py:67-80 | fan, contact, shock; 1 - v_l/v_r is non-negative; the second state is 1/2; q* at or below 1/2 and different from q_r; admissible |
| VariableSpeedRiemann.LeftRarefSolution | exact_solvers/traffic_variable_speed.py:82-95 | fan then contact; 1 - 4f_r/v_l is non-negative; q* at or above 1/2; admissible |
| VariableSpeedRiemann.RightRarefSolution | exact_solvers/traffic_variable_speed.py:97-110 | contact then fan; 1 - 4f_l/v_r is non-negative; q* at or below 1/2; admissible |
| VariableSpeedRiemann.TransonicLeftStarSolution | exact_solvers/traffic_variable_speed.py:114-128 | for v_r < v_l: fan, contact, fan; 1 - v_r/v_l is non-negative; q* at or above 1/2, then 1/2; admissible |
| VariableSpeedRiemann.TransonicRightStarSolution | exact_solvers/traffic_variable_speed.py:130-144 | for v_r > v_l: fan, contact, fan; 1 - v_l/v_r is non-negative; 1/2, then q* at or below 1/2; admissible |
| VariableSpeedRiemann.TransonicEqualSolution | exact_solvers/traffic_variable_speed.py:146-154 | for v_r == v_l: states [q_l, q_r] and one fan, no contact; admissible |
| VariableSpeedRiemann.Solve | exact_solvers/traffic_variable_speed.py:18-161 | fails exactly when no guard holds, reporting (f_l, f_r); otherwise the solution is admissible and has exactly one contact, except the transonic equal-speed case, which is a single fan |
| VariableSpeedRiemann.ClassifyTotal | exact_solvers/traffic_variable_speed.py:112 | for positive speed limits some guard holds for every pair of densities |
| VariableSpeedRiemann.SolveNeverFails | exact_solvers/traffic_variable_speed.py:157-159 | for positive speed limits the "Unhandled state!" failure is unreachable |
| VariableSpeedRiemann.MiddleGuardsExclusive | exact_solvers/traffic_variable_speed.py:24-97 | at most one of the guards of the left shock, right shock, shock plus rarefaction, rarefaction plus shock, left and right rarefaction holds |
| VariableSpeedRiemann.TransonicOverlaps | exact_solvers/traffic_variable_speed.py:112 | the transonic guard excludes both shocks and both shock-rarefaction guards; it meets the left-rarefaction guard only at q_r = 1/2 and the right-rarefaction guard only at q_l = 1/2, and there the classifier takes that earlier rarefaction branch |
| VariableSpeedRiemann.ShockToUpperRoot | exact_solvers/traffic_variable_speed.py:26-28 | from q_l up to the root (1 + s)/2, which lies at or above 1/2 and carries the target flux, the shock at the computed speed is negative, conserves flux and satisfies the entropy condition |
| VariableSpeedRiemann.ShockFromLowerRoot | exact_solvers/traffic_variable_speed.py:40-42 | from the root (1 - s)/2, which lies at or below 1/2 and carries the target flux, up to q_r, the shock at the computed speed is positive, conserves flux and satisfies the entropy condition |
| VariableSpeedRiemann.TransonicStarBelowLeft | exact_solvers/traffic_variable_speed.py:116 | with v_r < v_l the transonic q* lies at or below q_l |
| VariableSpeedRiemann.TransonicStarAboveRight | exact_solvers/traffic_variable_speed.py:132 | with v_r > v_l the transonic q* lies at or above q_r |
| Profiles.LeftShockProfile | exact_solvers/traffic_variable_speed.py:31-36 | the evaluator gives q_l, q* and q_r strictly inside the gaps around the shock and the contact |
| Profiles.RightShockProfile | exact_solvers/traffic_variable_speed.py:45-50 | the evaluator gives q_l, q* and q_r strictly inside the gaps around the contact and the shock |
| Profiles.ShockRarefProfile | exact_solvers/traffic_variable_speed.py:58-65 | exact states in every open gap and the v_r fan profile strictly inside the fan |
| Profiles.RarefShockProfile | exact_solvers/traffic_variable_speed.py:73-80 | exact states in every open gap and the v_l fan profile strictly inside the fan |
| Profiles.LeftRarefProfile | exact_solvers/traffic_variable_speed.py:88-95 | exact states in every open gap and the v_l fan profile strictly inside the fan |
| Profiles.RightRarefProfile | exact_solvers/traffic_variable_speed.py:103-110 | exact states in every open gap and the v_r fan profile strictly inside the fan |
| Profiles.TransonicLeftStarProfile | exact_solvers/traffic_variable_speed.py:120-128 | exact states in every open gap and the profile of its side strictly inside each fan |
| Profiles.TransonicRightStarProfile | exact_solvers/traffic_variable_speed.py:136-144 | exact states in every open gap and the profile of its side strictly inside each fan |
| Profiles.TransonicEqualProfile | exact_solvers/traffic_variable_speed.py:149-154 | q_l left of the fan, q_r right of it and the fan profile inside |
| Profiles.SolveProfileExact | exact_solvers/traffic_variable_speed.py:24-154 | apart from the lone contact, the evaluator gives q_l left of all waves, q_r right of all waves, each intermediate state between its neighbouring waves and the fan profile of its side strictly inside each fan |
| Profiles.ContactOnlyEvaluatesLeft | exact_solvers/traffic_variable_speed.py:22 | with equal fluxes the evaluator returns q_l at every coordinate |
| Profiles.LeftShockOverlap | exact_solvers/traffic_variable_speed.py:34-35 | at xi = 0 the left-shock evaluator returns q* + q_r |
| Profiles.RightShockOverlap | exact_solvers/traffic_variable_speed.py:48-49 | at xi equal to the shock speed the right-shock evaluator returns q* + q_r |
| Profiles.ShockRarefOverlap | exact_solvers/traffic_variable_speed.py:62-64 | with q_r = 1/2 the fan is empty and at xi = 0 the shock-plus-rarefaction evaluator returns q* + 1/2 |
| Profiles.ShockRarefOverlapReachable | exact_solvers/traffic_variable_speed.py:52 | the shock-plus-rarefaction branch is taken for q_l = q_r = 1/2, v_l = 2, v_r = 1, so that overlap occurs |
| Profiles.LeftRarefOverlap | exact_solvers/traffic_variable_speed.py:93-94 | at xi = 0 the left-rarefaction evaluator returns q* + q_r |
| Profiles.RightRarefOverlap | exact_solvers/traffic_variable_speed.py:108-109 | at xi = c_r the right-rarefaction evaluator returns 2 q_r |
| Profiles.ContactPartnerInUnit | exact_solvers/traffic_variable_speed.py:26 | across a contact one neighbouring state is in [0, 1] exactly when the other is |
| Profiles.StatesInUnitInterval | exact_solvers/traffic_variable_speed.py:18-154 | for densities in [0, 1] every listed state, each q* included, lies in [0, 1] |

## Left out

- `phase_plane_plot` (lines 164-231) draws the solution with matplotlib and is not modelled.
  The only thing the model takes from it is its rule that a wave whose slowest
  speed is negative belongs to the `v_l` side (`Waves.SideLimit`).
- The `print(f_l, f_r)` before the failure (line 158) is output only; the failure
  result carries the two fluxes instead.
- Floating point: every quantity is an exact `real`, and the test `f_r == f_l` is
  exact real equality.
- NumPy array shapes: the `(1, n)` arrays and the `np.array([states])` wrapper become
  plain sequences. `reval` becomes a list of terms (`Waves.Term`), read at one point by
  `Waves.Eval` and at many points by `Waves.Evaluate`.
- `np.sqrt` is a parameter that must be an exact square root; no particular
  implementation of it is modelled.
- Solve: requires positive speed limits. With `v_l = 0` (or `v_r = 0`), only the branches
  that divide by that limit fail: the radicands at lines 26, 54, 84 and 116 (or 40, 69, 99
  and 132) and the fan profiles at lines 77, 92, 124, 140 and 153 (or 63, 108, 126 and 142).
  The other branches, such as the right-going shock with `v_l = 0` and `f_l = 0`, return
  ordinary results, and the model does not cover them. Negative speed limits are not speed limits.
- The mirror symmetry between the problem and its reflection (`q` to `1 - q`, left to
  right) is not stated.
