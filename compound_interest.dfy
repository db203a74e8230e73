/**
  The compound-interest script (compound-interest/example.py): one coarse time unit is cut
  into `timeSteps` sub-steps, and the balance P, starting at p0, is advanced t * timeSteps
  times by P += (r / timeSteps) * P + k / timeSteps.
 */
module CompoundInterest {
  import opened Common

  /** What the script produces: the approximated balance, or the division by zero it raises. */
  datatype Outcome = ZeroDivisionError | Approximation(balance: real)

  /** Balance after n sub-steps from p0 with per-step rate rStep and per-step deposit kStep. */
  function Balance(p0: real, rStep: real, kStep: real, n: nat): (p: real)
  {
    if n == 0 then p0
    else
      var p := Balance(p0, rStep, kStep, n - 1);
      p + (rStep * p + kStep)
  }

  /** The script with its constants as parameters; t and timeSteps are integers. */
  method Approximate(p0: real, r: real, k: real, t: int, timeSteps: int) returns (out: Outcome)
    ensures out == ZeroDivisionError <==> timeSteps == 0
    ensures timeSteps != 0 ==>
              out == Approximation(Balance(p0, r / (timeSteps as real), k / (timeSteps as real), RangeLength(t * timeSteps)))
  {
    if timeSteps == 0 {
      return ZeroDivisionError;
    }
    var kContinuous := k / (timeSteps as real);
    var rContinuous := r / (timeSteps as real);
    var tContinuous := t * timeSteps;

    var P := p0;
    for j := 0 to RangeLength(tContinuous)
      invariant P == Balance(p0, rContinuous, kContinuous, j)
    {
      P := P + (rContinuous * P + kContinuous);
    }
    return Approximation(P);
  }

  /** The script's own constants: 10000 at 1.7% with 1000 deposited per unit, 20 units of 100 sub-steps. */
  method Example() returns (out: Outcome)
    ensures out == Approximation(Balance(10000.0, 0.017 / 100.0, 1000.0 / 100.0, 2000))
  {
    out := Approximate(10000.0, 0.017, 1000.0, 20, 100);
  }

  /** With no interest each sub-step only adds the deposit. */
  lemma {:induction false} BalanceWithoutInterest(p0: real, kStep: real, n: nat)
    ensures Balance(p0, 0.0, kStep, n) == p0 + (n as real) * kStep
  {
    if n > 0 {
      BalanceWithoutInterest(p0, kStep, n - 1);
    }
  }

  /** With r = 0 the approximation is exact: the final balance is p0 + k * t. */
  lemma ZeroRateFinalBalance(p0: real, k: real, t: int, timeSteps: int)
    requires timeSteps != 0 && t * timeSteps >= 0
    ensures Balance(p0, 0.0 / (timeSteps as real), k / (timeSteps as real), RangeLength(t * timeSteps))
            == p0 + k * (t as real)
  {
    var ts := timeSteps as real;
    BalanceWithoutInterest(p0, k / ts, t * timeSteps);
    assert ((t * timeSteps) as real) == (t as real) * ts;
    calc {
      ((t * timeSteps) as real) * (k / ts);
      (t as real) * (ts * (k / ts));
      (t as real) * k;
    }
  }

  /** With non-negative p0, rate and deposit the balance stays at least p0 and never decreases. */
  lemma {:induction false} BalanceNondecreasing(p0: real, rStep: real, kStep: real, n: nat)
    requires p0 >= 0.0 && rStep >= 0.0 && kStep >= 0.0
    ensures p0 <= Balance(p0, rStep, kStep, n) <= Balance(p0, rStep, kStep, n + 1)
  {
    if n > 0 {
      BalanceNondecreasing(p0, rStep, kStep, n - 1);
    }
    var p := Balance(p0, rStep, kStep, n);
    assert rStep * p >= 0.0 by {
      NonNegProduct(rStep, p);
    }
  }

  /** The script's balance never decreases from one iteration to the next when p0, r, k >= 0. */
  lemma ApproximationNondecreasing(p0: real, r: real, k: real, timeSteps: int, n: nat)
    requires p0 >= 0.0 && r >= 0.0 && k >= 0.0 && timeSteps > 0
    ensures Balance(p0, r / (timeSteps as real), k / (timeSteps as real), n)
            <= Balance(p0, r / (timeSteps as real), k / (timeSteps as real), n + 1)
  {
    BalanceNondecreasing(p0, r / (timeSteps as real), k / (timeSteps as real), n);
  }
}
