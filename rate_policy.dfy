/**
  The piecewise-constant rate rule of the COVID-19 simulator: at every step the death
  rate switches to its elevated value once the number infected reaches hospital capacity,
  and the vaccination rate is switched on once the elapsed time reaches the vaccine day.
 */
module RatePolicy {

  /** Hospital capacity (people infected); default threshold of ValidateConst. */
  const HOPS_CAPACITY: real := 45000.0

  /** Day from which the vaccine is available; default delay of ValidateConst. */
  const VAC_DAY: real := 90.0

  /** The two-element death-rate list: index 0 below capacity, index 1 at or above it. */
  datatype DeathRates = DeathRates(baseline: real, elevated: real)

  /** The pair (g, d): death rate and vaccination rate in effect for one step. */
  datatype RateSnapshot = RateSnapshot(g: real, d: real)

  /** Simulation time reached after `iter` steps of size `deltaT`. */
  function ElapsedTime(iter: int, deltaT: real): (time: real)
  {
    (iter as real) * deltaT
  }

  /** The rate selector: both thresholds are inclusive. */
  function ValidateConst(gamma: DeathRates, delta: real, infectCount: real, iter: int, deltaT: real,
                         vaccineDay: real, hopsCap: real): (r: RateSnapshot)
    ensures infectCount >= hopsCap ==> r.g == gamma.elevated
    ensures infectCount < hopsCap ==> r.g == gamma.baseline
    ensures ElapsedTime(iter, deltaT) >= vaccineDay ==> r.d == delta
    ensures ElapsedTime(iter, deltaT) < vaccineDay ==> r.d == 0.0
  {
    var g := if infectCount >= hopsCap then gamma.elevated else gamma.baseline;
    var d := if ElapsedTime(iter, deltaT) >= vaccineDay then delta else 0.0;
    RateSnapshot(g, d)
  }

  /** The death rate chosen never falls as the number infected grows, when gamma[0] <= gamma[1]. */
  lemma DeathRateMonotone(gamma: DeathRates, delta: real, c1: real, c2: real, iter: int, deltaT: real,
                          vaccineDay: real, hopsCap: real)
    requires gamma.baseline <= gamma.elevated
    requires c1 <= c2
    ensures ValidateConst(gamma, delta, c1, iter, deltaT, vaccineDay, hopsCap).g
         <= ValidateConst(gamma, delta, c2, iter, deltaT, vaccineDay, hopsCap).g
  {
  }

  /** With a non-negative step size, vaccination once switched on stays on at every later step. */
  lemma VaccinationStaysOn(gamma: DeathRates, delta: real, c1: real, c2: real, i1: int, i2: int,
                           deltaT: real, vaccineDay: real, hopsCap: real)
    requires deltaT >= 0.0 && i1 <= i2
    requires ElapsedTime(i1, deltaT) >= vaccineDay
    ensures ValidateConst(gamma, delta, c2, i2, deltaT, vaccineDay, hopsCap).d == delta
  {
    assert ElapsedTime(i2, deltaT) - ElapsedTime(i1, deltaT) == ((i2 - i1) as real) * deltaT;
  }

  /**
    Exactly on the vaccine day the vaccination rate applies; with a positive step size the
    step before it still gets rate 0.
   */
  lemma VaccineDayTie(gamma: DeathRates, delta: real, infectCount: real, iter: int, deltaT: real)
    requires deltaT > 0.0 && ElapsedTime(iter, deltaT) == VAC_DAY
    ensures ValidateConst(gamma, delta, infectCount, iter, deltaT, VAC_DAY, HOPS_CAPACITY).d == delta
    ensures ValidateConst(gamma, delta, infectCount, iter - 1, deltaT, VAC_DAY, HOPS_CAPACITY).d == 0.0
  {
    assert ElapsedTime(iter - 1, deltaT) == ElapsedTime(iter, deltaT) - deltaT;
  }

  /** Exactly at capacity the elevated rate applies; below it, the baseline rate. */
  lemma CapacityTie(gamma: DeathRates, delta: real, iter: int, deltaT: real)
    ensures ValidateConst(gamma, delta, HOPS_CAPACITY, iter, deltaT, VAC_DAY, HOPS_CAPACITY).g == gamma.elevated
    ensures ValidateConst(gamma, delta, HOPS_CAPACITY - 1.0, iter, deltaT, VAC_DAY, HOPS_CAPACITY).g == gamma.baseline
  {
  }
}
