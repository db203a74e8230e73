# Forward-Euler compartment simulators, modelled in Dafny

This project models the numerical core of a small collection of mathematical-modelling
scripts:

- the COVID-19 simulator (`covid19/model.py`). Its rate rule `validateConst` picks the
  elevated death rate once the number infected reaches hospital capacity (45000). It also
  switches vaccination on once the elapsed time `i * delta_t` reaches the vaccine day (90).
  Three fixed-step integrators use it: `basicSIR` (S, I, R, D), `vaccineSIR` (adds V) and
  `vaccineSIRDeathSplit` (adds age-group death shares Dy, Da, De);
- the vaccination simulator (`vaccinations/model.py`): `basicSIR` (S, I, R) and
  `vaccineSIR` (adds V), with no rate switching;
- the compound-interest script (`compound-interest/example.py`). It advances a balance
  `P += (r/time_steps)*P + k/time_steps` for `t*time_steps` sub-steps.

Every population, rate and balance is a Dafny `real`; step counts, iteration indices,
`t` and `time_steps` are `int`s. The identities are therefore proved exactly, not up to
floating-point rounding. The time at step `i` is `(i as real) * deltaT`.

Each integrator is an imperative method. It starts one list per compartment with the
initial value and appends one entry per iteration of a `for` loop, as the source does.
The loop body first computes the next snapshot with a pure step function
(`BasicStep`, `VaccineStep`). In the COVID-19 model that function asks `ValidateConst`
for the step's rates; in the vaccination model the rates are fixed. It then applies the
source's update formulas to the index-`i` values. The body then appends each
component to its list.
Each method is specified by a ghost predicate (`IsBasicRun`, `IsVaccineRun`, `IsAgeSplit`).
The predicate gives the list lengths and index 0, and says that entry `k + 1` is a pure
step function (`BasicStep`, `VaccineStep`) of the index-`k` values. So the death rate is
chosen from the pre-update `I[k]`, and no new entry reads a value appended earlier in the
same iteration. The lemmas beside each method prove the source's properties from the
predicate:

- the population total is conserved;
- R (and, in the COVID-19 model, D) never decreases and S never increases on a step whose
  coefficients and current S and I are non-negative;
- V does not change before the vaccine day;
- the delta = 0 and alpha = 0 specialisations reduce to the basic models;
- a run is deterministic, so `vaccineSIRDeathSplit` yields the same S, I, R, D, V lists
  as `vaccineSIR`;
- the age shares of each step sum to the previous cumulative dead.

Python's `range(steps)` runs zero times when `steps <= 0`. `Common.RangeLength` models
this, so a negative step count gives lists of length 1 and no precondition is added.

Three behaviours of the scripts are kept exactly as written:

- Negative step counts and non-positive step sizes are accepted, not rejected.
- The age-group shares are taken of the pre-update cumulative dead `D[i]`, not of the
  step's increment.
- In `vaccinations/model.py` the vaccination transfer `alpha*S[i]` is not multiplied by
  `delta_t`. It is modelled as written.

## Model

| member | source | states |
|---|---|---|
| Common.RangeLength | covid19/model.py:25 | `for i in range(steps)` runs `steps` times when `steps >= 0` and not at all when it is negative |
| RatePolicy.ValidateConst | covid19/model.py:8-17 | the death rate is `gamma[1]` when `infectCount >= hopsCap` and `gamma[0]` otherwise; the vaccination rate is `delta` when `iter*delta_t >= vaccineDay` and 0 otherwise (both ties inclusive) |
| RatePolicy.DeathRateMonotone | covid19/model.py:9-12 | when `gamma[0] <= gamma[1]`, more infected people never select a lower death rate |
| RatePolicy.VaccinationStaysOn | covid19/model.py:13-16 | with `delta_t >= 0`, once vaccination is active at some step it is active at every later step |
| RatePolicy.CapacityTie | covid19/model.py:5-12 | exactly `HOPS_CAPACITY` infected selects the elevated rate; one fewer selects the baseline |
| RatePolicy.VaccineDayTie | covid19/model.py:13-16 | with `delta_t > 0`, the step whose elapsed time is exactly `VAC_DAY` gets the vaccination rate `delta`; the step before it gets 0 |
| Covid19Model.BasicRates | covid19/model.py:26 | basicSIR never vaccinates (it passes delta 0), and its death rate is chosen from the pre-update `I[i]` against the default capacity |
| Covid19Model.BasicSIR | covid19/model.py:19-33 | the four lists have length `steps + 1`, start at S0, I0, R0, D0, and each entry is the explicit step from the previous index; S+I+R+D is conserved at every index; S never increases on a step with non-negative `delta_t`, `alpha`, `S[i]`, `I[i]`; R and D never decrease on a step with non-negative `delta_t`, `beta`, gammas and `I[i]` |
| Covid19Model.BasicStepConserves | covid19/model.py:28-31 | the four increments of one basic step sum to zero |
| Covid19Model.BasicRunConserves | covid19/model.py:24-31 | at every index of a basic run, S+I+R+D equals S0+I0+R0+D0 |
| Covid19Model.BasicRunMonotone | covid19/model.py:26-31 | S[i+1] <= S[i] when `delta_t`, `alpha`, `S[i]` and `I[i]` are non-negative; R[i+1] >= R[i] and D[i+1] >= D[i] when `delta_t`, `beta`, both gammas and `I[i]` are non-negative |
| Covid19Model.BasicRunDeathRateSwitch | covid19/model.py:26-31 | each step's death increment uses `gamma[1]` exactly when the pre-update `I[i] >= HOPS_CAPACITY`, else `gamma[0]` |
| Covid19Model.VaccineSIR | covid19/model.py:36-52 | the five lists have length `steps + 1`, start at the initial values, and follow the explicit vaccination step; S+I+R+D+V is conserved; `V[i+1] == V[i]` on every step with `i*delta_t < VAC_DAY` |
| Covid19Model.VaccineStepConserves | covid19/model.py:46-50 | the five increments of one vaccination step sum to zero |
| Covid19Model.VaccineRunConserves | covid19/model.py:42-50 | at every index of a vaccination run, S+I+R+D+V equals its initial total |
| Covid19Model.VaccineRunNoVaccinationBeforeDay | covid19/model.py:44-50 | before the vaccine day, a step leaves V unchanged |
| Covid19Model.VaccineRunDeathRateSwitch | covid19/model.py:44-49 | in vaccineSIR too, each step's death increment uses `gamma[1]` exactly when the pre-update `I[i] >= HOPS_CAPACITY`, else `gamma[0]` |
| Covid19Model.VaccineRunProperties | covid19/model.py:42-50 | conservation at every index and an unchanged V on every step before the vaccine day |
| Covid19Model.VaccineRunDeterministic | covid19/model.py:60-70 | two runs from the same inputs have equal lists, so the S, I, R, D, V of `vaccineSIRDeathSplit` equal those of `vaccineSIR` |
| Covid19Model.ZeroDeltaVaccineRunIsBasicRun | covid19/model.py:24-50 | with `delta = 0`, the S, I, R, D lists of vaccineSIR are those of basicSIR and V stays at V0 |
| Covid19Model.ZeroDeltaStep | covid19/model.py:26-50 | one vaccination step with `delta = 0` moves S, I, R, D exactly as a basic step does and leaves V unchanged |
| Covid19Model.VaccineSIRDeathSplit | covid19/model.py:54-75 | S, I, R, D, V form a vaccineSIR run; Dy, Da, De have length `steps + 1`, start at 0, and at index i+1 hold 1%, 15% and 84% of the pre-update `D[i]`, so the three add up to `D[i]`; S+I+R+D+V is conserved |
| Covid19Model.AgeSplitSumsToPreviousDead | covid19/model.py:71-73 | `Dy[i+1] + Da[i+1] + De[i+1] == D[i]` at every step |
| VaccinationsModel.BasicSIR | vaccinations/model.py:3-18 | the three lists have length `steps + 1`, start at S0, I0, R0, and follow the explicit step; S+I+R is conserved; S never increases and R never decreases on a step with non-negative `delta_t`, `beta`, `gamma`, `S[i]`, `I[i]` |
| VaccinationsModel.BasicRunConserves | vaccinations/model.py:14-17 | at every index of a basic run, S+I+R equals S0+I0+R0 |
| VaccinationsModel.BasicRunMonotone | vaccinations/model.py:15-17 | `S[i+1] <= S[i]` and `R[i+1] >= R[i]` under non-negative `delta_t`, `beta`, `gamma`, `S[i]`, `I[i]` |
| VaccinationsModel.BasicRunDeterministic | vaccinations/model.py:9-17 | two basic runs from the same inputs have equal lists |
| VaccinationsModel.VaccineSIR | vaccinations/model.py:21-40 | the four lists have length `steps + 1`, start at the initial values, and follow the vaccination step; S+V+I+R is conserved; V never decreases on a step with `alpha*S[i] >= 0` |
| VaccinationsModel.VaccineRunTransfer | vaccinations/model.py:36-37 | on each step V gains exactly `alpha*S[i]` (not scaled by `delta_t`), and S loses that amount on top of the infection flow |
| VaccinationsModel.VaccineRunConserves | vaccinations/model.py:35-39 | at every index of a vaccination run, S+V+I+R equals its initial total |
| VaccinationsModel.ZeroAlphaVaccineRunIsBasicRun | vaccinations/model.py:14-39 | with `alpha = 0`, the S, I, R lists of vaccineSIR are those of basicSIR and V stays at V0 |
| CompoundInterest.Approximate | compound-interest/example.py:13-21 | `time_steps == 0` raises a division by zero; otherwise the loop runs `t*time_steps` times (none if negative) from p0, each time applying `P := P + (r/time_steps)*P + k/time_steps` |
| CompoundInterest.Example | compound-interest/example.py:3-21 | the script's own constants run the update 2000 times from 10000 |
| CompoundInterest.BalanceWithoutInterest | compound-interest/example.py:19-21 | with zero per-step rate, n steps add exactly n deposits |
| CompoundInterest.ZeroRateFinalBalance | compound-interest/example.py:15-21 | with `r = 0`, `time_steps != 0` and `t*time_steps >= 0`, the final balance is `p0 + k*t` |
| CompoundInterest.BalanceNondecreasing | compound-interest/example.py:19-21 | with a non-negative start, rate and deposit, the balance stays at least p0 and never decreases from one step to the next |
| CompoundInterest.ApproximationNondecreasing | compound-interest/example.py:15-21 | with non-negative p0, r, k, the script's balance never decreases across iterations |

## Left out

- Floating-point arithmetic: every quantity is a real. Identities such as
  `D*.01 + D*.15 + D*.84 == D` hold over reals but not always in IEEE doubles.
- `displayModel` in both simulators, and every matplotlib and numpy call: plotting only.
- The `main()` scenario drivers, the parameter derivations in them, and the module-level
  `main()` calls: they only choose inputs and hand results to plotting.
- Writing `model-visuals/constants.txt` and all `print` calls: output only.
- The closed-form comparison with `math.exp` in compound-interest/example.py: transcendental
  floating-point. The convergence of the approximation to it is therefore not modelled.
- home-heating/phasePortrait.py is not part of this model: it is a one-line slope field
  plotted with numpy and matplotlib.
- RatePolicy.ValidateConst: `gamma` is modelled as a pair, so the IndexError that a list
  shorter than two raises is not modelled. Every caller passes a two-element list.
- CompoundInterest.ApproximationNondecreasing: assumes `time_steps > 0`, as in the script.
  With a negative `time_steps` the per-step rate `r/time_steps` is negative and the balance
  can fall.
- The mix of Python ints and floats among the populations and rates (for example `d = 0`)
  is not distinguished: every population, rate and balance is a real.
