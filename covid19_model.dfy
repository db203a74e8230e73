/**
  The forward-Euler compartment simulators of covid19/model.py: basicSIR (S, I, R, D),
  vaccineSIR (adds V) and vaccineSIRDeathSplit (adds the age-group death shares Dy, Da, De).
  Each integrator starts one list per compartment with its initial value and, for
  `steps` iterations, appends X[i] + deltaT * rate, where the rate reads only index-i values
  and the rates g, d come from ValidateConst at step i with the default constants.
 */
module Covid19Model {
  import opened Common
  import opened RatePolicy

  /** The coefficients shared by every variant: step size, contact rate, recovery rate, death rates. */
  datatype Coefficients = Coefficients(deltaT: real, alpha: real, beta: real, gamma: DeathRates)

  /** The values of the four basic lists at one index. */
  datatype SIRD = SIRD(s: real, i: real, r: real, d: real)

  /** The values of the five lists of the vaccination variant at one index. */
  datatype SIRDV = SIRDV(s: real, i: real, r: real, d: real, v: real)

  function Total(x: SIRD): (total: real)
  {
    x.s + x.i + x.r + x.d
  }

  function TotalV(x: SIRDV): (total: real)
  {
    x.s + x.i + x.r + x.d + x.v
  }

  function At(S: seq<real>, I: seq<real>, R: seq<real>, D: seq<real>, k: nat): (x: SIRD)
    requires k < |S| && k < |I| && k < |R| && k < |D|
  {
    SIRD(S[k], I[k], R[k], D[k])
  }

  function AtV(S: seq<real>, I: seq<real>, R: seq<real>, D: seq<real>, V: seq<real>, k: nat): (x: SIRDV)
    requires k < |S| && k < |I| && k < |R| && k < |D| && k < |V|
  {
    SIRDV(S[k], I[k], R[k], D[k], V[k])
  }

  // ---------------------------------------------------------------------------
  // basicSIR

  /** Rates of step k of basicSIR: it passes vaccination rate 0 and the default constants. */
  function BasicRates(c: Coefficients, x: SIRD, k: int): (r: RateSnapshot)
    ensures r.d == 0.0
    ensures r.g == (if x.i >= HOPS_CAPACITY then c.gamma.elevated else c.gamma.baseline)
  {
    ValidateConst(c.gamma, 0.0, x.i, k, c.deltaT, VAC_DAY, HOPS_CAPACITY)
  }

  /** One explicit step of basicSIR, computed from the index-k values only. */
  function BasicStep(c: Coefficients, x: SIRD, k: int): (next: SIRD)
  {
    var g := BasicRates(c, x, k).g;
    SIRD(x.s + c.deltaT * (-c.alpha * x.s * x.i),
         x.i + c.deltaT * (c.alpha * x.s * x.i - c.beta * x.i - g * x.i),
         x.r + c.deltaT * (c.beta * x.i),
         x.d + c.deltaT * (g * x.i))
  }

  /** S, I, R, D are the lists of a basicSIR run of n steps from x0. */
  ghost predicate IsBasicRun(c: Coefficients, x0: SIRD, n: nat, S: seq<real>, I: seq<real>, R: seq<real>, D: seq<real>)
  {
    |S| == n + 1 && |I| == n + 1 && |R| == n + 1 && |D| == n + 1 &&
    At(S, I, R, D, 0) == x0 &&
    forall k :: 0 <= k < n ==> At(S, I, R, D, k + 1) == BasicStep(c, At(S, I, R, D, k), k)
  }

  method BasicSIR(deltaT: real, alpha: real, beta: real, gamma: DeathRates,
                  S0: real, I0: real, R0: real, D0: real, steps: int)
    returns (S: seq<real>, I: seq<real>, R: seq<real>, D: seq<real>)
    ensures IsBasicRun(Coefficients(deltaT, alpha, beta, gamma), SIRD(S0, I0, R0, D0), RangeLength(steps), S, I, R, D)
    ensures |S| == |I| == |R| == |D| == RangeLength(steps) + 1
    ensures S[0] == S0 && I[0] == I0 && R[0] == R0 && D[0] == D0
    ensures forall k :: 0 <= k < |S| ==> S[k] + I[k] + R[k] + D[k] == S0 + I0 + R0 + D0
    ensures forall k :: 0 <= k < RangeLength(steps) ==>
              (deltaT >= 0.0 && alpha >= 0.0 && S[k] >= 0.0 && I[k] >= 0.0 ==> S[k + 1] <= S[k])
    ensures forall k :: 0 <= k < RangeLength(steps) ==>
              (deltaT >= 0.0 && beta >= 0.0 && gamma.baseline >= 0.0 && gamma.elevated >= 0.0 && I[k] >= 0.0 ==>
                 R[k] <= R[k + 1] && D[k] <= D[k + 1])
  {
    var c := Coefficients(deltaT, alpha, beta, gamma);
    ghost var x0 := SIRD(S0, I0, R0, D0);
    var n := RangeLength(steps);
    S, I, R, D := [S0], [I0], [R0], [D0];
    for i := 0 to n
      invariant IsBasicRun(c, x0, i, S, I, R, D)
    {
      BasicRunExtend(c, x0, i, S, I, R, D);
      var next := BasicStep(c, At(S, I, R, D, i), i);
      S, I, R, D := S + [next.s], I + [next.i], R + [next.r], D + [next.d];
    }
    forall k | 0 <= k < |S|
      ensures S[k] + I[k] + R[k] + D[k] == S0 + I0 + R0 + D0
    {
      BasicRunConserves(c, x0, n, S, I, R, D, k);
    }
    forall k | 0 <= k < n
      ensures deltaT >= 0.0 && alpha >= 0.0 && S[k] >= 0.0 && I[k] >= 0.0 ==> S[k + 1] <= S[k]
      ensures deltaT >= 0.0 && beta >= 0.0 && gamma.baseline >= 0.0 && gamma.elevated >= 0.0 && I[k] >= 0.0 ==>
                R[k] <= R[k + 1] && D[k] <= D[k + 1]
    {
      BasicRunMonotone(c, x0, n, S, I, R, D, k);
    }
  }

  /** Appending one basic step to a run of i steps gives a run of i + 1 steps. */
  lemma BasicRunExtend(c: Coefficients, x0: SIRD, i: nat, S: seq<real>, I: seq<real>, R: seq<real>, D: seq<real>)
    requires IsBasicRun(c, x0, i, S, I, R, D)
    ensures var y := BasicStep(c, At(S, I, R, D, i), i);
            IsBasicRun(c, x0, i + 1, S + [y.s], I + [y.i], R + [y.r], D + [y.d])
  {
    var y := BasicStep(c, At(S, I, R, D, i), i);
    var S', I', R', D' := S + [y.s], I + [y.i], R + [y.r], D + [y.d];
    forall k | 0 <= k <= i
      ensures At(S', I', R', D', k) == At(S, I, R, D, k)
    {
    }
  }

  /** The four increments of a basic step cancel: S + I + R + D is unchanged. */
  lemma BasicStepConserves(c: Coefficients, x: SIRD, k: int)
    ensures Total(BasicStep(c, x, k)) == Total(x)
  {
  }

  /** S + I + R + D at every index of a basic run equals its initial total. */
  lemma {:induction false} BasicRunConserves(c: Coefficients, x0: SIRD, n: nat,
                                             S: seq<real>, I: seq<real>, R: seq<real>, D: seq<real>, k: nat)
    requires IsBasicRun(c, x0, n, S, I, R, D)
    requires k <= n
    ensures S[k] + I[k] + R[k] + D[k] == Total(x0)
  {
    if k > 0 {
      BasicRunConserves(c, x0, n, S, I, R, D, k - 1);
      assert At(S, I, R, D, k) == BasicStep(c, At(S, I, R, D, k - 1), k - 1);
      BasicStepConserves(c, At(S, I, R, D, k - 1), k - 1);
    }
  }

  /**
    S does not increase on a step from non-negative S and I with non-negative deltaT and alpha;
    R and D do not decrease on a step from non-negative I with non-negative coefficients.
   */
  lemma BasicRunMonotone(c: Coefficients, x0: SIRD, n: nat,
                         S: seq<real>, I: seq<real>, R: seq<real>, D: seq<real>, k: nat)
    requires IsBasicRun(c, x0, n, S, I, R, D)
    requires k < n
    ensures c.deltaT >= 0.0 && c.alpha >= 0.0 && S[k] >= 0.0 && I[k] >= 0.0 ==> S[k + 1] <= S[k]
    ensures c.deltaT >= 0.0 && c.beta >= 0.0 && c.gamma.baseline >= 0.0 && c.gamma.elevated >= 0.0 && I[k] >= 0.0 ==>
              R[k] <= R[k + 1] && D[k] <= D[k + 1]
  {
    var x := At(S, I, R, D, k);
    assert At(S, I, R, D, k + 1) == BasicStep(c, x, k);
    if c.deltaT >= 0.0 && c.alpha >= 0.0 && x.s >= 0.0 && x.i >= 0.0 {
      NonNegProduct(c.alpha, x.s);
      NonNegProduct(c.alpha * x.s, x.i);
      NonNegProduct(c.deltaT, c.alpha * x.s * x.i);
    }
    if c.deltaT >= 0.0 && c.beta >= 0.0 && c.gamma.baseline >= 0.0 && c.gamma.elevated >= 0.0 && x.i >= 0.0 {
      var g := BasicRates(c, x, k).g;
      assert g >= 0.0;
      NonNegProduct(c.beta, x.i);
      NonNegProduct(c.deltaT, c.beta * x.i);
      NonNegProduct(g, x.i);
      NonNegProduct(c.deltaT, g * x.i);
    }
  }

  /** The death rate of step k is chosen from I[k], the pre-update value, with an inclusive threshold. */
  lemma BasicRunDeathRateSwitch(c: Coefficients, x0: SIRD, n: nat,
                                S: seq<real>, I: seq<real>, R: seq<real>, D: seq<real>, k: nat)
    requires IsBasicRun(c, x0, n, S, I, R, D)
    requires k < n
    ensures I[k] >= HOPS_CAPACITY ==> D[k + 1] == D[k] + c.deltaT * (c.gamma.elevated * I[k])
    ensures I[k] < HOPS_CAPACITY ==> D[k + 1] == D[k] + c.deltaT * (c.gamma.baseline * I[k])
  {
    assert At(S, I, R, D, k + 1) == BasicStep(c, At(S, I, R, D, k), k);
  }

  // ---------------------------------------------------------------------------
  // vaccineSIR

  /** Rates of step k of vaccineSIR: the supplied delta and the default constants. */
  function VaccineRates(c: Coefficients, delta: real, x: SIRDV, k: int): RateSnapshot
  {
    ValidateConst(c.gamma, delta, x.i, k, c.deltaT, VAC_DAY, HOPS_CAPACITY)
  }

  /** One explicit step of vaccineSIR, computed from the index-k values only. */
  function VaccineStep(c: Coefficients, delta: real, x: SIRDV, k: int): (next: SIRDV)
  {
    var rates := VaccineRates(c, delta, x, k);
    SIRDV(x.s + c.deltaT * (-c.alpha * x.s * x.i - rates.d * x.s),
          x.i + c.deltaT * (c.alpha * x.s * x.i - c.beta * x.i - rates.g * x.i),
          x.r + c.deltaT * (c.beta * x.i),
          x.d + c.deltaT * (rates.g * x.i),
          x.v + c.deltaT * (rates.d * x.s))
  }

  /** S, I, R, D, V are the lists of a vaccineSIR run of n steps from x0. */
  ghost predicate IsVaccineRun(c: Coefficients, delta: real, x0: SIRDV, n: nat,
                               S: seq<real>, I: seq<real>, R: seq<real>, D: seq<real>, V: seq<real>)
  {
    |S| == n + 1 && |I| == n + 1 && |R| == n + 1 && |D| == n + 1 && |V| == n + 1 &&
    AtV(S, I, R, D, V, 0) == x0 &&
    forall k :: 0 <= k < n ==> AtV(S, I, R, D, V, k + 1) == VaccineStep(c, delta, AtV(S, I, R, D, V, k), k)
  }

  method VaccineSIR(deltaT: real, alpha: real, beta: real, gamma: DeathRates, delta: real,
                    S0: real, I0: real, R0: real, D0: real, V0: real, steps: int)
    returns (S: seq<real>, I: seq<real>, R: seq<real>, D: seq<real>, V: seq<real>)
    ensures IsVaccineRun(Coefficients(deltaT, alpha, beta, gamma), delta, SIRDV(S0, I0, R0, D0, V0),
                         RangeLength(steps), S, I, R, D, V)
    ensures |S| == |I| == |R| == |D| == |V| == RangeLength(steps) + 1
    ensures S[0] == S0 && I[0] == I0 && R[0] == R0 && D[0] == D0 && V[0] == V0
    ensures forall k :: 0 <= k < |S| ==> S[k] + I[k] + R[k] + D[k] + V[k] == S0 + I0 + R0 + D0 + V0
    ensures forall k :: 0 <= k < RangeLength(steps) && ElapsedTime(k, deltaT) < VAC_DAY ==> V[k + 1] == V[k]
  {
    var c := Coefficients(deltaT, alpha, beta, gamma);
    ghost var x0 := SIRDV(S0, I0, R0, D0, V0);
    var n := RangeLength(steps);
    S, I, R, D, V := [S0], [I0], [R0], [D0], [V0];
    for i := 0 to n
      invariant IsVaccineRun(c, delta, x0, i, S, I, R, D, V)
    {
      VaccineRunExtend(c, delta, x0, i, S, I, R, D, V);
      var next := VaccineStep(c, delta, AtV(S, I, R, D, V, i), i);
      S, I, R, D, V := S + [next.s], I + [next.i], R + [next.r], D + [next.d], V + [next.v];
    }
    VaccineRunProperties(c, delta, x0, n, S, I, R, D, V);
  }

  /** Appending one vaccination step to a run of i steps gives a run of i + 1 steps. */
  lemma VaccineRunExtend(c: Coefficients, delta: real, x0: SIRDV, i: nat,
                         S: seq<real>, I: seq<real>, R: seq<real>, D: seq<real>, V: seq<real>)
    requires IsVaccineRun(c, delta, x0, i, S, I, R, D, V)
    ensures var y := VaccineStep(c, delta, AtV(S, I, R, D, V, i), i);
            IsVaccineRun(c, delta, x0, i + 1, S + [y.s], I + [y.i], R + [y.r], D + [y.d], V + [y.v])
  {
    var y := VaccineStep(c, delta, AtV(S, I, R, D, V, i), i);
    var S', I', R', D', V' := S + [y.s], I + [y.i], R + [y.r], D + [y.d], V + [y.v];
    forall k | 0 <= k <= i
      ensures AtV(S', I', R', D', V', k) == AtV(S, I, R, D, V, k)
    {
    }
  }

  /** The five increments of a vaccination step cancel: S + I + R + D + V is unchanged. */
  lemma VaccineStepConserves(c: Coefficients, delta: real, x: SIRDV, k: int)
    ensures TotalV(VaccineStep(c, delta, x, k)) == TotalV(x)
  {
  }

  /** S + I + R + D + V at every index of a vaccination run equals its initial total. */
  lemma {:induction false} VaccineRunConserves(c: Coefficients, delta: real, x0: SIRDV, n: nat,
                                               S: seq<real>, I: seq<real>, R: seq<real>, D: seq<real>, V: seq<real>,
                                               k: nat)
    requires IsVaccineRun(c, delta, x0, n, S, I, R, D, V)
    requires k <= n
    ensures S[k] + I[k] + R[k] + D[k] + V[k] == TotalV(x0)
  {
    if k > 0 {
      VaccineRunConserves(c, delta, x0, n, S, I, R, D, V, k - 1);
      assert AtV(S, I, R, D, V, k) == VaccineStep(c, delta, AtV(S, I, R, D, V, k - 1), k - 1);
      VaccineStepConserves(c, delta, AtV(S, I, R, D, V, k - 1), k - 1);
    }
  }

  /** Before the vaccine day no one is vaccinated on a step: V[k + 1] == V[k]. */
  lemma VaccineRunNoVaccinationBeforeDay(c: Coefficients, delta: real, x0: SIRDV, n: nat,
                                         S: seq<real>, I: seq<real>, R: seq<real>, D: seq<real>, V: seq<real>,
                                         k: nat)
    requires IsVaccineRun(c, delta, x0, n, S, I, R, D, V)
    requires k < n
    ensures ElapsedTime(k, c.deltaT) < VAC_DAY ==> V[k + 1] == V[k]
  {
    assert AtV(S, I, R, D, V, k + 1) == VaccineStep(c, delta, AtV(S, I, R, D, V, k), k);
  }

  /**
    In a vaccination run too, the death rate of step k is chosen from the pre-update I[k],
    with an inclusive threshold.
   */
  lemma VaccineRunDeathRateSwitch(c: Coefficients, delta: real, x0: SIRDV, n: nat,
                                  S: seq<real>, I: seq<real>, R: seq<real>, D: seq<real>, V: seq<real>, k: nat)
    requires IsVaccineRun(c, delta, x0, n, S, I, R, D, V)
    requires k < n
    ensures I[k] >= HOPS_CAPACITY ==> D[k + 1] == D[k] + c.deltaT * (c.gamma.elevated * I[k])
    ensures I[k] < HOPS_CAPACITY ==> D[k + 1] == D[k] + c.deltaT * (c.gamma.baseline * I[k])
  {
    assert AtV(S, I, R, D, V, k + 1) == VaccineStep(c, delta, AtV(S, I, R, D, V, k), k);
  }

  /** Conservation and the closed vaccination window, at every index of a vaccination run. */
  lemma VaccineRunProperties(c: Coefficients, delta: real, x0: SIRDV, n: nat,
                             S: seq<real>, I: seq<real>, R: seq<real>, D: seq<real>, V: seq<real>)
    requires IsVaccineRun(c, delta, x0, n, S, I, R, D, V)
    ensures forall k :: 0 <= k <= n ==> S[k] + I[k] + R[k] + D[k] + V[k] == TotalV(x0)
    ensures forall k :: 0 <= k < n && ElapsedTime(k, c.deltaT) < VAC_DAY ==> V[k + 1] == V[k]
  {
    forall k | 0 <= k <= n
      ensures S[k] + I[k] + R[k] + D[k] + V[k] == TotalV(x0)
    {
      VaccineRunConserves(c, delta, x0, n, S, I, R, D, V, k);
    }
    forall k | 0 <= k < n && ElapsedTime(k, c.deltaT) < VAC_DAY
      ensures V[k + 1] == V[k]
    {
      VaccineRunNoVaccinationBeforeDay(c, delta, x0, n, S, I, R, D, V, k);
    }
  }

  /** Agreement of two vaccination runs on every index up to k. */
  lemma {:induction false} VaccineRunsAgreeUpTo(c: Coefficients, delta: real, x0: SIRDV, n: nat,
                                                S: seq<real>, I: seq<real>, R: seq<real>, D: seq<real>, V: seq<real>,
                                                S': seq<real>, I': seq<real>, R': seq<real>, D': seq<real>, V': seq<real>,
                                                k: nat)
    requires IsVaccineRun(c, delta, x0, n, S, I, R, D, V)
    requires IsVaccineRun(c, delta, x0, n, S', I', R', D', V')
    requires k <= n
    ensures AtV(S, I, R, D, V, k) == AtV(S', I', R', D', V', k)
  {
    if k > 0 {
      VaccineRunsAgreeUpTo(c, delta, x0, n, S, I, R, D, V, S', I', R', D', V', k - 1);
      assert AtV(S, I, R, D, V, k) == VaccineStep(c, delta, AtV(S, I, R, D, V, k - 1), k - 1);
      assert AtV(S', I', R', D', V', k) == VaccineStep(c, delta, AtV(S', I', R', D', V', k - 1), k - 1);
    }
  }

  /** A vaccination run is determined by its inputs: any two runs have the same lists. */
  lemma VaccineRunDeterministic(c: Coefficients, delta: real, x0: SIRDV, n: nat,
                                S: seq<real>, I: seq<real>, R: seq<real>, D: seq<real>, V: seq<real>,
                                S': seq<real>, I': seq<real>, R': seq<real>, D': seq<real>, V': seq<real>)
    requires IsVaccineRun(c, delta, x0, n, S, I, R, D, V)
    requires IsVaccineRun(c, delta, x0, n, S', I', R', D', V')
    ensures S == S' && I == I' && R == R' && D == D' && V == V'
  {
    forall k | 0 <= k <= n
      ensures S[k] == S'[k] && I[k] == I'[k] && R[k] == R'[k] && D[k] == D'[k] && V[k] == V'[k]
    {
      VaccineRunsAgreeUpTo(c, delta, x0, n, S, I, R, D, V, S', I', R', D', V', k);
    }
  }

  /** With delta = 0 the vaccination variant is basicSIR on S, I, R, D, and V stays at V0. */
  lemma {:induction false} ZeroDeltaVaccineRunIsBasicRun(c: Coefficients, x0: SIRDV, n: nat,
                                                         S: seq<real>, I: seq<real>, R: seq<real>, D: seq<real>, V: seq<real>)
    requires IsVaccineRun(c, 0.0, x0, n, S, I, R, D, V)
    ensures IsBasicRun(c, SIRD(x0.s, x0.i, x0.r, x0.d), n, S, I, R, D)
    ensures forall k :: 0 <= k <= n ==> V[k] == x0.v
  {
    forall k | 0 <= k < n
      ensures At(S, I, R, D, k + 1) == BasicStep(c, At(S, I, R, D, k), k)
      ensures V[k + 1] == V[k]
    {
      assert AtV(S, I, R, D, V, k + 1) == VaccineStep(c, 0.0, AtV(S, I, R, D, V, k), k);
      ZeroDeltaStep(c, AtV(S, I, R, D, V, k), k);
    }
    forall k | 0 <= k <= n
      ensures V[k] == x0.v
    {
      ZeroDeltaVaccinationConstant(c, x0, n, S, I, R, D, V, k);
    }
  }

  /** A vaccination step with delta = 0 is a basic step on S, I, R, D and leaves V alone. */
  lemma ZeroDeltaStep(c: Coefficients, x: SIRDV, k: int)
    ensures var y := VaccineStep(c, 0.0, x, k);
            SIRD(y.s, y.i, y.r, y.d) == BasicStep(c, SIRD(x.s, x.i, x.r, x.d), k) && y.v == x.v
  {
    var s, i, r, d, v := x.s, x.i, x.r, x.d, x.v;
    var g := BasicRates(c, SIRD(s, i, r, d), k).g;
    var rates := VaccineRates(c, 0.0, x, k);
    assert rates == RateSnapshot(g, 0.0);
    assert VaccineStep(c, 0.0, x, k)
        == SIRDV(s + c.deltaT * (-c.alpha * s * i - 0.0 * s),
                 i + c.deltaT * (c.alpha * s * i - c.beta * i - g * i),
                 r + c.deltaT * (c.beta * i),
                 d + c.deltaT * (g * i),
                 v + c.deltaT * (0.0 * s));
    assert BasicStep(c, SIRD(s, i, r, d), k)
        == SIRD(s + c.deltaT * (-c.alpha * s * i),
                i + c.deltaT * (c.alpha * s * i - c.beta * i - g * i),
                r + c.deltaT * (c.beta * i),
                d + c.deltaT * (g * i));
    assert -c.alpha * s * i - 0.0 * s == -c.alpha * s * i;
    assert c.deltaT * (0.0 * s) == 0.0;
  }

  lemma {:induction false} ZeroDeltaVaccinationConstant(c: Coefficients, x0: SIRDV, n: nat,
                                                        S: seq<real>, I: seq<real>, R: seq<real>, D: seq<real>, V: seq<real>,
                                                        k: nat)
    requires IsVaccineRun(c, 0.0, x0, n, S, I, R, D, V)
    requires k <= n
    ensures V[k] == x0.v
  {
    if k > 0 {
      ZeroDeltaVaccinationConstant(c, x0, n, S, I, R, D, V, k - 1);
      assert AtV(S, I, R, D, V, k) == VaccineStep(c, 0.0, AtV(S, I, R, D, V, k - 1), k - 1);
    }
  }

  // ---------------------------------------------------------------------------
  // vaccineSIRDeathSplit

  /** Fixed shares of the cumulative dead in the three age groups; they sum to one. */
  const YOUNG_SHARE: real := 0.01
  const ADULT_SHARE: real := 0.15
  const ELDERLY_SHARE: real := 0.84

  /**
    Dy, Da, De start at 0 and, at index k >= 1, hold the age shares of the pre-update
    cumulative dead D[k - 1] (not of the increment of step k - 1).
   */
  ghost predicate IsAgeSplit(n: nat, D: seq<real>, Dy: seq<real>, Da: seq<real>, De: seq<real>)
  {
    |D| == n + 1 && |Dy| == n + 1 && |Da| == n + 1 && |De| == n + 1 &&
    Dy[0] == 0.0 && Da[0] == 0.0 && De[0] == 0.0 &&
    forall k :: 1 <= k <= n ==>
      Dy[k] == D[k - 1] * YOUNG_SHARE && Da[k] == D[k - 1] * ADULT_SHARE && De[k] == D[k - 1] * ELDERLY_SHARE
  }

  method VaccineSIRDeathSplit(deltaT: real, alpha: real, beta: real, gamma: DeathRates, delta: real,
                              S0: real, I0: real, R0: real, D0: real, V0: real, steps: int)
    returns (S: seq<real>, I: seq<real>, R: seq<real>, D: seq<real>, V: seq<real>,
             Dy: seq<real>, Da: seq<real>, De: seq<real>)
    ensures IsVaccineRun(Coefficients(deltaT, alpha, beta, gamma), delta, SIRDV(S0, I0, R0, D0, V0),
                         RangeLength(steps), S, I, R, D, V)
    ensures IsAgeSplit(RangeLength(steps), D, Dy, Da, De)
    ensures |S| == |I| == |R| == |D| == |V| == |Dy| == |Da| == |De| == RangeLength(steps) + 1
    ensures S[0] == S0 && I[0] == I0 && R[0] == R0 && D[0] == D0 && V[0] == V0
    ensures Dy[0] == 0.0 && Da[0] == 0.0 && De[0] == 0.0
    ensures forall k :: 0 <= k < RangeLength(steps) ==> Dy[k + 1] + Da[k + 1] + De[k + 1] == D[k]
    ensures forall k :: 0 <= k < |S| ==> S[k] + I[k] + R[k] + D[k] + V[k] == S0 + I0 + R0 + D0 + V0
  {
    var c := Coefficients(deltaT, alpha, beta, gamma);
    ghost var x0 := SIRDV(S0, I0, R0, D0, V0);
    var n := RangeLength(steps);
    S, I, R, D, V := [S0], [I0], [R0], [D0], [V0];
    Dy, Da, De := [0.0], [0.0], [0.0];
    for i := 0 to n
      invariant IsVaccineRun(c, delta, x0, i, S, I, R, D, V)
      invariant IsAgeSplit(i, D, Dy, Da, De)
    {
      VaccineRunExtend(c, delta, x0, i, S, I, R, D, V);
      var next := VaccineStep(c, delta, AtV(S, I, R, D, V, i), i);
      AgeSplitExtend(i, D, Dy, Da, De, next.d);
      S, I, R, V := S + [next.s], I + [next.i], R + [next.r], V + [next.v];
      D := D + [next.d];
      Dy := Dy + [D[i] * YOUNG_SHARE];
      Da := Da + [D[i] * ADULT_SHARE];
      De := De + [D[i] * ELDERLY_SHARE];
    }
    AgeSplitSumsToPreviousDead(n, D, Dy, Da, De);
    VaccineRunProperties(c, delta, x0, n, S, I, R, D, V);
  }

  /** Appending the next cumulative dead and the shares of the previous one extends an age split. */
  lemma AgeSplitExtend(i: nat, D: seq<real>, Dy: seq<real>, Da: seq<real>, De: seq<real>, next: real)
    requires IsAgeSplit(i, D, Dy, Da, De)
    ensures IsAgeSplit(i + 1, D + [next], Dy + [D[i] * YOUNG_SHARE], Da + [D[i] * ADULT_SHARE],
                       De + [D[i] * ELDERLY_SHARE])
  {
  }

  /** The three age-group values at index k + 1 add up to the cumulative dead D[k]. */
  lemma AgeSplitSumsToPreviousDead(n: nat, D: seq<real>, Dy: seq<real>, Da: seq<real>, De: seq<real>)
    requires IsAgeSplit(n, D, Dy, Da, De)
    ensures forall k :: 0 <= k < n ==> Dy[k + 1] + Da[k + 1] + De[k + 1] == D[k]
  {
    forall k | 0 <= k < n
      ensures Dy[k + 1] + Da[k + 1] + De[k + 1] == D[k]
    {
      assert YOUNG_SHARE + ADULT_SHARE + ELDERLY_SHARE == 1.0;
    }
  }
}
