/**
  The forward-Euler simulators of vaccinations/model.py: basicSIR (S, I, R) and vaccineSIR
  (adds V). There is no rate switching here. In vaccineSIR the vaccination transfer
  alpha * S[i] is applied per step as written, without the factor deltaT.
 */
module VaccinationsModel {
  import opened Common

  /** Step size, contact rate and recovery rate. */
  datatype Coefficients = Coefficients(deltaT: real, beta: real, gamma: real)

  /** The values of the three basic lists at one index. */
  datatype SIR = SIR(s: real, i: real, r: real)

  /** The values of the four lists of the vaccination variant at one index. */
  datatype SIRV = SIRV(s: real, i: real, r: real, v: real)

  function At(S: seq<real>, I: seq<real>, R: seq<real>, k: nat): (x: SIR)
    requires k < |S| && k < |I| && k < |R|
  {
    SIR(S[k], I[k], R[k])
  }

  function AtV(S: seq<real>, I: seq<real>, R: seq<real>, V: seq<real>, k: nat): (x: SIRV)
    requires k < |S| && k < |I| && k < |R| && k < |V|
  {
    SIRV(S[k], I[k], R[k], V[k])
  }

  // ---------------------------------------------------------------------------
  // basicSIR

  /** One explicit step of basicSIR, computed from the index-k values only. */
  function BasicStep(c: Coefficients, x: SIR): (next: SIR)
  {
    SIR(x.s - c.deltaT * c.beta * x.s * x.i,
        x.i + c.deltaT * (c.beta * x.s * x.i - c.gamma * x.i),
        x.r + c.deltaT * c.gamma * x.i)
  }

  /** S, I, R are the lists of a basicSIR run of n steps from x0. */
  ghost predicate IsBasicRun(c: Coefficients, x0: SIR, n: nat, S: seq<real>, I: seq<real>, R: seq<real>)
  {
    |S| == n + 1 && |I| == n + 1 && |R| == n + 1 &&
    At(S, I, R, 0) == x0 &&
    forall k :: 0 <= k < n ==> At(S, I, R, k + 1) == BasicStep(c, At(S, I, R, k))
  }

  method BasicSIR(deltaT: real, beta: real, gamma: real, S0: real, I0: real, R0: real, steps: int)
    returns (S: seq<real>, I: seq<real>, R: seq<real>)
    ensures IsBasicRun(Coefficients(deltaT, beta, gamma), SIR(S0, I0, R0), RangeLength(steps), S, I, R)
    ensures |S| == |I| == |R| == RangeLength(steps) + 1
    ensures S[0] == S0 && I[0] == I0 && R[0] == R0
    ensures forall k :: 0 <= k < |S| ==> S[k] + I[k] + R[k] == S0 + I0 + R0
    ensures forall k :: 0 <= k < RangeLength(steps) ==>
              (deltaT >= 0.0 && beta >= 0.0 && gamma >= 0.0 && S[k] >= 0.0 && I[k] >= 0.0 ==>
                 S[k + 1] <= S[k] && R[k] <= R[k + 1])
  {
    var c := Coefficients(deltaT, beta, gamma);
    ghost var x0 := SIR(S0, I0, R0);
    var n := RangeLength(steps);
    S, I, R := [S0], [I0], [R0];
    for i := 0 to n
      invariant IsBasicRun(c, x0, i, S, I, R)
    {
      BasicRunExtend(c, x0, i, S, I, R);
      var next := BasicStep(c, At(S, I, R, i));
      S, I, R := S + [next.s], I + [next.i], R + [next.r];
    }
    forall k | 0 <= k < |S|
      ensures S[k] + I[k] + R[k] == S0 + I0 + R0
    {
      BasicRunConserves(c, x0, n, S, I, R, k);
    }
    forall k | 0 <= k < n
      ensures deltaT >= 0.0 && beta >= 0.0 && gamma >= 0.0 && S[k] >= 0.0 && I[k] >= 0.0 ==>
                S[k + 1] <= S[k] && R[k] <= R[k + 1]
    {
      BasicRunMonotone(c, x0, n, S, I, R, k);
    }
  }

  /** Appending one basic step to a run of i steps gives a run of i + 1 steps. */
  lemma BasicRunExtend(c: Coefficients, x0: SIR, i: nat, S: seq<real>, I: seq<real>, R: seq<real>)
    requires IsBasicRun(c, x0, i, S, I, R)
    ensures var y := BasicStep(c, At(S, I, R, i));
            IsBasicRun(c, x0, i + 1, S + [y.s], I + [y.i], R + [y.r])
  {
    var y := BasicStep(c, At(S, I, R, i));
    var S', I', R' := S + [y.s], I + [y.i], R + [y.r];
    forall k | 0 <= k <= i
      ensures At(S', I', R', k) == At(S, I, R, k)
    {
    }
  }

  /** S + I + R at every index of a basic run equals its initial total. */
  lemma {:induction false} BasicRunConserves(c: Coefficients, x0: SIR, n: nat,
                                             S: seq<real>, I: seq<real>, R: seq<real>, k: nat)
    requires IsBasicRun(c, x0, n, S, I, R)
    requires k <= n
    ensures S[k] + I[k] + R[k] == x0.s + x0.i + x0.r
  {
    if k > 0 {
      BasicRunConserves(c, x0, n, S, I, R, k - 1);
      assert At(S, I, R, k) == BasicStep(c, At(S, I, R, k - 1));
    }
  }

  /** S does not grow and R does not shrink on a step from non-negative S and I. */
  lemma BasicRunMonotone(c: Coefficients, x0: SIR, n: nat, S: seq<real>, I: seq<real>, R: seq<real>, k: nat)
    requires IsBasicRun(c, x0, n, S, I, R)
    requires k < n
    ensures c.deltaT >= 0.0 && c.beta >= 0.0 && c.gamma >= 0.0 && S[k] >= 0.0 && I[k] >= 0.0 ==>
              S[k + 1] <= S[k] && R[k] <= R[k + 1]
  {
    var x := At(S, I, R, k);
    assert At(S, I, R, k + 1) == BasicStep(c, x);
    if c.deltaT >= 0.0 && c.beta >= 0.0 && c.gamma >= 0.0 && x.s >= 0.0 && x.i >= 0.0 {
      NonNegProduct(c.deltaT, c.beta);
      NonNegProduct(c.deltaT * c.beta, x.s);
      NonNegProduct(c.deltaT * c.beta * x.s, x.i);
      NonNegProduct(c.deltaT, c.gamma);
      NonNegProduct(c.deltaT * c.gamma, x.i);
    }
  }

  // ---------------------------------------------------------------------------
  // vaccineSIR

  /**
    One step of vaccineSIR from the index-k values: the infection and recovery flows are
    scaled by deltaT, the vaccination transfer alpha * S is not.
   */
  function VaccineStep(c: Coefficients, alpha: real, x: SIRV): (next: SIRV)
  {
    SIRV(x.s - c.deltaT * c.beta * x.s * x.i - alpha * x.s,
         x.i + c.deltaT * (c.beta * x.s * x.i - c.gamma * x.i),
         x.r + c.deltaT * c.gamma * x.i,
         x.v + alpha * x.s)
  }

  /** S, I, R, V are the lists of a vaccineSIR run of n steps from x0. */
  ghost predicate IsVaccineRun(c: Coefficients, alpha: real, x0: SIRV, n: nat,
                               S: seq<real>, I: seq<real>, R: seq<real>, V: seq<real>)
  {
    |S| == n + 1 && |I| == n + 1 && |R| == n + 1 && |V| == n + 1 &&
    AtV(S, I, R, V, 0) == x0 &&
    forall k :: 0 <= k < n ==> AtV(S, I, R, V, k + 1) == VaccineStep(c, alpha, AtV(S, I, R, V, k))
  }

  method VaccineSIR(deltaT: real, beta: real, gamma: real, alpha: real,
                    S0: real, I0: real, R0: real, V0: real, steps: int)
    returns (S: seq<real>, I: seq<real>, R: seq<real>, V: seq<real>)
    ensures IsVaccineRun(Coefficients(deltaT, beta, gamma), alpha, SIRV(S0, I0, R0, V0), RangeLength(steps), S, I, R, V)
    ensures |S| == |I| == |R| == |V| == RangeLength(steps) + 1
    ensures S[0] == S0 && I[0] == I0 && R[0] == R0 && V[0] == V0
    ensures forall k :: 0 <= k < |S| ==> S[k] + V[k] + I[k] + R[k] == S0 + V0 + I0 + R0
    ensures forall k :: 0 <= k < RangeLength(steps) ==> (alpha * S[k] >= 0.0 ==> V[k] <= V[k + 1])
  {
    var c := Coefficients(deltaT, beta, gamma);
    ghost var x0 := SIRV(S0, I0, R0, V0);
    var n := RangeLength(steps);
    S, V, I, R := [S0], [V0], [I0], [R0];
    for i := 0 to n
      invariant IsVaccineRun(c, alpha, x0, i, S, I, R, V)
    {
      VaccineRunExtend(c, alpha, x0, i, S, I, R, V);
      var next := VaccineStep(c, alpha, AtV(S, I, R, V, i));
      S, V, I, R := S + [next.s], V + [next.v], I + [next.i], R + [next.r];
    }
    forall k | 0 <= k < |S|
      ensures S[k] + V[k] + I[k] + R[k] == S0 + V0 + I0 + R0
    {
      VaccineRunConserves(c, alpha, x0, n, S, I, R, V, k);
    }
    forall k | 0 <= k < n
      ensures alpha * S[k] >= 0.0 ==> V[k] <= V[k + 1]
    {
      VaccineRunTransfer(c, alpha, x0, n, S, I, R, V, k);
    }
  }

  /** Appending one vaccination step to a run of i steps gives a run of i + 1 steps. */
  lemma VaccineRunExtend(c: Coefficients, alpha: real, x0: SIRV, i: nat,
                         S: seq<real>, I: seq<real>, R: seq<real>, V: seq<real>)
    requires IsVaccineRun(c, alpha, x0, i, S, I, R, V)
    ensures var y := VaccineStep(c, alpha, AtV(S, I, R, V, i));
            IsVaccineRun(c, alpha, x0, i + 1, S + [y.s], I + [y.i], R + [y.r], V + [y.v])
  {
    var y := VaccineStep(c, alpha, AtV(S, I, R, V, i));
    var S', I', R', V' := S + [y.s], I + [y.i], R + [y.r], V + [y.v];
    forall k | 0 <= k <= i
      ensures AtV(S', I', R', V', k) == AtV(S, I, R, V, k)
    {
    }
  }

  /**
    On every step V gains exactly alpha * S[k], whatever deltaT is, and S loses that amount
    on top of the infection flow; so V never decreases when alpha * S[k] >= 0.
   */
  lemma VaccineRunTransfer(c: Coefficients, alpha: real, x0: SIRV, n: nat,
                           S: seq<real>, I: seq<real>, R: seq<real>, V: seq<real>, k: nat)
    requires IsVaccineRun(c, alpha, x0, n, S, I, R, V)
    requires k < n
    ensures V[k + 1] - V[k] == alpha * S[k]
    ensures S[k] - S[k + 1] == c.deltaT * c.beta * S[k] * I[k] + (V[k + 1] - V[k])
    ensures alpha * S[k] >= 0.0 ==> V[k] <= V[k + 1]
  {
    assert AtV(S, I, R, V, k + 1) == VaccineStep(c, alpha, AtV(S, I, R, V, k));
  }

  /** S + V + I + R at every index of a vaccination run equals its initial total. */
  lemma {:induction false} VaccineRunConserves(c: Coefficients, alpha: real, x0: SIRV, n: nat,
                                               S: seq<real>, I: seq<real>, R: seq<real>, V: seq<real>, k: nat)
    requires IsVaccineRun(c, alpha, x0, n, S, I, R, V)
    requires k <= n
    ensures S[k] + V[k] + I[k] + R[k] == x0.s + x0.v + x0.i + x0.r
  {
    if k > 0 {
      VaccineRunConserves(c, alpha, x0, n, S, I, R, V, k - 1);
      assert AtV(S, I, R, V, k) == VaccineStep(c, alpha, AtV(S, I, R, V, k - 1));
    }
  }

  /** With alpha = 0, S, I, R follow basicSIR from the same start and V stays at V0. */
  lemma {:induction false} ZeroAlphaVaccineRunIsBasicRun(c: Coefficients, x0: SIRV, n: nat,
                                                         S: seq<real>, I: seq<real>, R: seq<real>, V: seq<real>)
    requires IsVaccineRun(c, 0.0, x0, n, S, I, R, V)
    ensures IsBasicRun(c, SIR(x0.s, x0.i, x0.r), n, S, I, R)
    ensures forall k :: 0 <= k <= n ==> V[k] == x0.v
  {
    forall k | 0 <= k < n
      ensures At(S, I, R, k + 1) == BasicStep(c, At(S, I, R, k))
    {
      assert AtV(S, I, R, V, k + 1) == VaccineStep(c, 0.0, AtV(S, I, R, V, k));
      assert 0.0 * S[k] == 0.0;
      assert S[k + 1] == S[k] - c.deltaT * c.beta * S[k] * I[k];
    }
    forall k | 0 <= k <= n
      ensures V[k] == x0.v
    {
      ZeroAlphaVaccinationConstant(c, x0, n, S, I, R, V, k);
    }
  }

  lemma {:induction false} ZeroAlphaVaccinationConstant(c: Coefficients, x0: SIRV, n: nat,
                                                        S: seq<real>, I: seq<real>, R: seq<real>, V: seq<real>, k: nat)
    requires IsVaccineRun(c, 0.0, x0, n, S, I, R, V)
    requires k <= n
    ensures V[k] == x0.v
  {
    if k > 0 {
      ZeroAlphaVaccinationConstant(c, x0, n, S, I, R, V, k - 1);
      assert AtV(S, I, R, V, k) == VaccineStep(c, 0.0, AtV(S, I, R, V, k - 1));
    }
  }

  /** A basicSIR run is determined by its inputs: any two runs have the same lists. */
  lemma BasicRunDeterministic(c: Coefficients, x0: SIR, n: nat, S: seq<real>, I: seq<real>, R: seq<real>,
                              S': seq<real>, I': seq<real>, R': seq<real>)
    requires IsBasicRun(c, x0, n, S, I, R)
    requires IsBasicRun(c, x0, n, S', I', R')
    ensures S == S' && I == I' && R == R'
  {
    forall k | 0 <= k <= n
      ensures S[k] == S'[k] && I[k] == I'[k] && R[k] == R'[k]
    {
      BasicRunsAgreeUpTo(c, x0, n, S, I, R, S', I', R', k);
    }
  }

  lemma {:induction false} BasicRunsAgreeUpTo(c: Coefficients, x0: SIR, n: nat, S: seq<real>, I: seq<real>, R: seq<real>,
                                              S': seq<real>, I': seq<real>, R': seq<real>, k: nat)
    requires IsBasicRun(c, x0, n, S, I, R)
    requires IsBasicRun(c, x0, n, S', I', R')
    requires k <= n
    ensures At(S, I, R, k) == At(S', I', R', k)
  {
    if k > 0 {
      BasicRunsAgreeUpTo(c, x0, n, S, I, R, S', I', R', k - 1);
      assert At(S, I, R, k) == BasicStep(c, At(S, I, R, k - 1));
      assert At(S', I', R', k) == BasicStep(c, At(S', I', R', k - 1));
    }
  }
}
