/** The three-regime perceived-density relation of the multiclass cell:
    from the two real densities it picks free flow, semi-congestion (trucks
    free, cars congested) or full congestion, and yields each class's space
    fraction and perceived density.  Arithmetic is exact (real); where the
    source divides, the divisor is required to be non-zero. */
module CellFlow {
  import opened CtmTypes
  import opened LinkParams

  datatype Regime = FreeFlow | SemiCongested | FullyCongested

  /** The quantities update_perceived_density sets, with the regime it chose. */
  datatype FlowState = FlowState(
    regime: Regime,
    fractionCar: real, fractionTruck: real,
    perceivedCar: real, perceivedTruck: real)

  /** Real density of a class: the discrete volume scaled back to vehicles,
      per metre of cell. */
  function Density(volume: int, flowScalar: real, cellLength: real): (d: real)
    requires flowScalar != 0.0 && cellLength != 0.0
    ensures d * cellLength * flowScalar == volume as real
    ensures 0 <= volume && 0.0 < flowScalar && 0.0 < cellLength ==> 0.0 <= d
  {
    (volume as real / flowScalar) / cellLength
  }

  predicate CriticalNonZero(p: CellParams) {
    p.criticalDensityCar != 0.0 && p.criticalDensityTruck != 0.0
  }

  /** Both classes are under their critical densities, jointly. */
  predicate InFreeFlow(p: CellParams, dc: real, dt: real)
    requires CriticalNonZero(p)
  {
    dc / p.criticalDensityCar + dt / p.criticalDensityTruck <= 1.0
  }

  /** The semi-congestion test as written: it divides by the truck's free
      share 1 - dt/ct without checking that this share is positive. */
  predicate InSemiCongestionAsWritten(p: CellParams, dc: real, dt: real)
    requires CriticalNonZero(p) && dt / p.criticalDensityTruck != 1.0
  {
    dc / (1.0 - dt / p.criticalDensityTruck) <= p.rho1N
  }

  /** The semi-congestion test as intended: trucks are in free flow (their
      share is below one) and the cars, squeezed into the remaining share,
      stay within rho_1_N. */
  predicate InSemiCongestion(p: CellParams, dc: real, dt: real)
    requires CriticalNonZero(p)
  {
    dt / p.criticalDensityTruck < 1.0 && dc / (1.0 - dt / p.criticalDensityTruck) <= p.rho1N
  }

  function RegimeOfAsWritten(p: CellParams, dc: real, dt: real): Regime
    requires CriticalNonZero(p)
    requires InFreeFlow(p, dc, dt) || dt / p.criticalDensityTruck != 1.0
  {
    if InFreeFlow(p, dc, dt) then FreeFlow
    else if InSemiCongestionAsWritten(p, dc, dt) then SemiCongested
    else FullyCongested
  }

  function RegimeOf(p: CellParams, dc: real, dt: real): Regime
    requires CriticalNonZero(p)
  {
    if InFreeFlow(p, dc, dt) then FreeFlow
    else if InSemiCongestion(p, dc, dt) then SemiCongested
    else FullyCongested
  }

  /** Wherever trucks are below their critical density the two regime
      choices agree: the guard only changes what happens above it. */
  lemma RegimeAgreesBelowTruckCritical(p: CellParams, dc: real, dt: real)
    requires CriticalNonZero(p) && dt / p.criticalDensityTruck < 1.0
    ensures RegimeOf(p, dc, dt) == RegimeOfAsWritten(p, dc, dt)
  {
  }

  // ---------------------------------------------------------------------
  // The formulas of each regime

  /** Free flow: each class's fraction is its share of its own critical
      density; the perceived density adds the other class's share of this
      class's critical density. */
  function FreeFlowState(p: CellParams, dc: real, dt: real): FlowState
    requires CriticalNonZero(p)
  {
    var fc := dc / p.criticalDensityCar;
    var ft := dt / p.criticalDensityTruck;
    FlowState(FreeFlow, fc, ft, dc + p.criticalDensityCar * ft, dt + p.criticalDensityTruck * fc)
  }

  /** Both fractions of the semi-congested formulas are non-zero. */
  predicate SemiCongestedDefined(p: CellParams, dt: real) {
    p.criticalDensityTruck != 0.0 &&
    dt / p.criticalDensityTruck != 0.0 && dt / p.criticalDensityTruck != 1.0
  }

  /** Semi-congestion: trucks keep their free-flow share, cars get the rest;
      each perceived density is the real one spread over its own share. */
  function SemiCongestedState(p: CellParams, dc: real, dt: real): FlowState
    requires SemiCongestedDefined(p, dt)
  {
    var ft := dt / p.criticalDensityTruck;
    var fc := 1.0 - ft;
    FlowState(SemiCongested, fc, ft, dc / fc, dt / ft)
  }

  /** The weight hold_cap * wave_speed / density of the fully congested regime. */
  function CongestedWeight(holdCap: real, waveSpeed: real, density: real): real
    requires density != 0.0
  {
    holdCap * waveSpeed / density
  }

  /** The divisions of the fully congested formulas have non-zero divisors. */
  predicate FullyCongestedDefined(p: CellParams, dc: real, dt: real) {
    dc != 0.0 && dt != 0.0 &&
    var tc := CongestedWeight(p.holdCapCar, p.waveSpeedCar, dc);
    var tt := CongestedWeight(p.holdCapTruck, p.waveSpeedTruck, dt);
    tc + tt != 0.0 &&
    p.waveSpeedCar - p.waveSpeedTruck + tt != 0.0 &&
    p.waveSpeedTruck - p.waveSpeedCar + tc != 0.0
  }

  /** Full congestion: the shares balance the two classes' congested
      branches, weighted by hold_cap * wave_speed / density. */
  function FullyCongestedState(p: CellParams, dc: real, dt: real): FlowState
    requires FullyCongestedDefined(p, dc, dt)
  {
    var tc := CongestedWeight(p.holdCapCar, p.waveSpeedCar, dc);
    var tt := CongestedWeight(p.holdCapTruck, p.waveSpeedTruck, dt);
    var fc := (p.waveSpeedCar - p.waveSpeedTruck + tt) / (tc + tt);
    var ft := (p.waveSpeedTruck - p.waveSpeedCar + tc) / (tc + tt);
    NonZeroQuotient(p.waveSpeedCar - p.waveSpeedTruck + tt, tc + tt);
    NonZeroQuotient(p.waveSpeedTruck - p.waveSpeedCar + tc, tc + tt);
    FlowState(FullyCongested, fc, ft, dc / fc, dt / ft)
  }

  lemma NonZeroQuotient(a: real, b: real)
    requires a != 0.0 && b != 0.0
    ensures a / b != 0.0
  {
    assert (a / b) * b == a;
  }

  /** Every division of the formula the chosen regime uses is well defined. */
  predicate Defined(p: CellParams, dc: real, dt: real) {
    CriticalNonZero(p) &&
    match RegimeOf(p, dc, dt)
    case FreeFlow => true
    case SemiCongested => SemiCongestedDefined(p, dt)
    case FullyCongested => FullyCongestedDefined(p, dc, dt)
  }

  /** update_perceived_density: the chosen regime's fractions and perceived
      densities.  In free flow the fractions are the densities' shares of
      critical and fit in one, and each class is perceived at its critical
      density times the occupied share; in semi-congestion trucks keep their
      free-flow share; in both congested regimes they partition the
      road space exactly and each perceived density spread over its class's
      fraction gives back the real density. */
  function FlowStateOf(p: CellParams, dc: real, dt: real): (s: FlowState)
    requires Defined(p, dc, dt)
    ensures s.regime == RegimeOf(p, dc, dt)
    ensures s.regime == FreeFlow ==>
      s.fractionCar * p.criticalDensityCar == dc && s.fractionTruck * p.criticalDensityTruck == dt &&
      s.fractionCar + s.fractionTruck <= 1.0 &&
      s.perceivedCar == p.criticalDensityCar * (s.fractionCar + s.fractionTruck) &&
      s.perceivedTruck == p.criticalDensityTruck * (s.fractionCar + s.fractionTruck)
    ensures s.regime == SemiCongested ==> s.fractionTruck * p.criticalDensityTruck == dt
    ensures s.regime != FreeFlow ==>
      s.fractionCar + s.fractionTruck == 1.0 &&
      s.perceivedCar * s.fractionCar == dc && s.perceivedTruck * s.fractionTruck == dt
  {
    match RegimeOf(p, dc, dt)
    case FreeFlow =>
      FreeFlowShares(p, dc, dt);
      FreeFlowState(p, dc, dt)
    case SemiCongested =>
      SemiCongestedPartition(p, dc, dt);
      SemiCongestedState(p, dc, dt)
    case FullyCongested =>
      var s := FullyCongestedState(p, dc, dt);
      FullyCongestedPartition(p, dc, dt);
      s
  }

  lemma FreeFlowShares(p: CellParams, dc: real, dt: real)
    requires CriticalNonZero(p) && InFreeFlow(p, dc, dt)
    ensures var s := FreeFlowState(p, dc, dt);
      s.fractionCar * p.criticalDensityCar == dc && s.fractionTruck * p.criticalDensityTruck == dt &&
      s.fractionCar + s.fractionTruck <= 1.0 &&
      s.perceivedCar == p.criticalDensityCar * (s.fractionCar + s.fractionTruck) &&
      s.perceivedTruck == p.criticalDensityTruck * (s.fractionCar + s.fractionTruck)
  {
    SpreadBack(dc, p.criticalDensityCar);
    SpreadBack(dt, p.criticalDensityTruck);
  }

  lemma SemiCongestedPartition(p: CellParams, dc: real, dt: real)
    requires SemiCongestedDefined(p, dt)
    ensures var s := SemiCongestedState(p, dc, dt);
      s.fractionTruck * p.criticalDensityTruck == dt &&
      s.fractionCar + s.fractionTruck == 1.0 &&
      s.perceivedCar * s.fractionCar == dc && s.perceivedTruck * s.fractionTruck == dt
  {
    var ft := dt / p.criticalDensityTruck;
    SpreadBack(dc, 1.0 - ft);
    SpreadBack(dt, ft);
  }

  lemma FullyCongestedPartition(p: CellParams, dc: real, dt: real)
    requires FullyCongestedDefined(p, dc, dt)
    ensures var s := FullyCongestedState(p, dc, dt);
      s.fractionCar + s.fractionTruck == 1.0 &&
      s.perceivedCar * s.fractionCar == dc && s.perceivedTruck * s.fractionTruck == dt
  {
    var tc := CongestedWeight(p.holdCapCar, p.waveSpeedCar, dc);
    var tt := CongestedWeight(p.holdCapTruck, p.waveSpeedTruck, dt);
    var d := tc + tt;
    var a := p.waveSpeedCar - p.waveSpeedTruck + tt;
    var b := p.waveSpeedTruck - p.waveSpeedCar + tc;
    SharesOfSum(a, b, d);
    NonZeroQuotient(a, d);
    NonZeroQuotient(b, d);
    SpreadBack(dc, a / d);
    SpreadBack(dt, b / d);
  }

  /** Two parts of a non-zero whole, each divided by the whole, add up to one. */
  lemma SharesOfSum(a: real, b: real, d: real)
    requires d != 0.0 && a + b == d
    ensures a / d + b / d == 1.0
  {
    assert (a / d + b / d) * d == a + b;
  }

  /** Spreading a density over a non-zero share and weighting it back by
      that share gives the density. */
  lemma SpreadBack(x: real, f: real)
    requires f != 0.0
    ensures (x / f) * f == x
  {
  }

  // ---------------------------------------------------------------------
  // Properties of the relation

  /** In free flow, with non-negative densities and positive critical
      densities, the fractions are non-negative and each perceived density
      lies between the real density and the class's critical density. */
  lemma FreeFlowPerceivedBetweenRealAndCritical(p: CellParams, dc: real, dt: real)
    requires 0.0 < p.criticalDensityCar && 0.0 < p.criticalDensityTruck
    requires 0.0 <= dc && 0.0 <= dt && InFreeFlow(p, dc, dt)
    ensures Defined(p, dc, dt)
    ensures var s := FlowStateOf(p, dc, dt);
      s.regime == FreeFlow &&
      0.0 <= s.fractionCar && 0.0 <= s.fractionTruck &&
      dc <= s.perceivedCar <= p.criticalDensityCar &&
      dt <= s.perceivedTruck <= p.criticalDensityTruck
  {
    assert FlowStateOf(p, dc, dt) == FreeFlowState(p, dc, dt);
    FreeFlowBounds(p.criticalDensityCar, p.criticalDensityTruck, dc, dt);
  }

  lemma FreeFlowBounds(cc: real, ct: real, dc: real, dt: real)
    requires 0.0 < cc && 0.0 < ct && 0.0 <= dc && 0.0 <= dt && dc / cc + dt / ct <= 1.0
    ensures 0.0 <= dc / cc && 0.0 <= dt / ct
    ensures dc <= dc + cc * (dt / ct) <= cc
    ensures dt <= dt + ct * (dc / cc) <= ct
  {
    var fc, ft := dc / cc, dt / ct;
    assert fc * cc == dc && ft * ct == dt;
    assert dc + cc * ft == cc * (fc + ft);
    assert dt + ct * fc == ct * (fc + ft);
    ScaleMonotone(cc, 0.0, ft);
    ScaleMonotone(ct, 0.0, fc);
    ScaleMonotone(cc, fc + ft, 1.0);
    ScaleMonotone(ct, fc + ft, 1.0);
  }

  /** In the semi-congested regime (non-negative car density, positive truck
      density) trucks take a share strictly between zero and one and are
      perceived exactly at their critical density; cars take the rest and
      are perceived at least at their real density and at most at rho_1_N. */
  lemma SemiCongestedWithinUnitShares(p: CellParams, dc: real, dt: real)
    requires p.criticalDensityCar != 0.0 && 0.0 < p.criticalDensityTruck
    requires 0.0 <= dc && 0.0 < dt
    requires RegimeOf(p, dc, dt) == SemiCongested
    ensures Defined(p, dc, dt)
    ensures var s := FlowStateOf(p, dc, dt);
      0.0 < s.fractionTruck < 1.0 && 0.0 < s.fractionCar < 1.0 &&
      s.perceivedTruck == p.criticalDensityTruck &&
      dc <= s.perceivedCar <= p.rho1N
  {
    var ct := p.criticalDensityTruck;
    var ft := dt / ct;
    assert 0.0 < ft < 1.0;
    assert SemiCongestedDefined(p, dt);
    var s := FlowStateOf(p, dc, dt);
    assert s == SemiCongestedState(p, dc, dt);
    var fc := 1.0 - ft;
    assert s.perceivedTruck == dt / ft;
    assert ft * ct == dt;
    assert s.perceivedCar == dc / fc;
    assert s.perceivedCar * fc == dc;
    assert 0.0 <= s.perceivedCar;
    assert s.perceivedCar * fc <= s.perceivedCar * 1.0;
  }

  /** Continuity at the free-flow / semi-congestion boundary: where the
      shares of critical add up to exactly one, the free-flow formulas and
      the semi-congested formulas give the same fractions and both perceive
      each class at its critical density. */
  lemma FreeFlowSemiBoundaryContinuous(p: CellParams, dc: real, dt: real)
    requires 0.0 < p.criticalDensityCar && 0.0 < p.criticalDensityTruck
    requires 0.0 < dc && 0.0 < dt
    requires dc / p.criticalDensityCar + dt / p.criticalDensityTruck == 1.0
    ensures RegimeOf(p, dc, dt) == FreeFlow
    ensures SemiCongestedDefined(p, dt)
    ensures var free, semi := FreeFlowState(p, dc, dt), SemiCongestedState(p, dc, dt);
      free.fractionCar == semi.fractionCar && free.fractionTruck == semi.fractionTruck &&
      free.perceivedCar == semi.perceivedCar == p.criticalDensityCar &&
      free.perceivedTruck == semi.perceivedTruck == p.criticalDensityTruck
  {
    var cc, ct := p.criticalDensityCar, p.criticalDensityTruck;
    var fc, ft := dc / cc, dt / ct;
    assert fc > 0.0 && ft > 0.0;
    assert fc == 1.0 - ft;
    assert fc * cc == dc && ft * ct == dt;
    var free, semi := FreeFlowState(p, dc, dt), SemiCongestedState(p, dc, dt);
    assert free.perceivedCar == cc * (fc + ft);
    assert free.perceivedTruck == ct * (fc + ft);
    assert semi.perceivedCar == dc / fc;
    assert semi.perceivedTruck == dt / ft;
  }

  /** As written, a cell whose trucks are above their critical density (and
      whose cars are not negative) is read as semi-congested whenever
      rho_1_N is non-negative, because the test divides by a negative truck
      share; the shares it then assigns leave [0, 1].  The guarded test sends
      the same cell to full congestion. */
  lemma TrucksAboveCriticalReadAsSemiCongestedAsWritten(p: CellParams, dc: real, dt: real)
    requires 0.0 < p.criticalDensityCar && 0.0 < p.criticalDensityTruck && 0.0 <= p.rho1N
    requires 0.0 <= dc && p.criticalDensityTruck < dt
    ensures !InFreeFlow(p, dc, dt) && dt / p.criticalDensityTruck != 1.0
    ensures RegimeOfAsWritten(p, dc, dt) == SemiCongested
    ensures SemiCongestedDefined(p, dt)
    ensures SemiCongestedState(p, dc, dt).fractionTruck > 1.0
    ensures SemiCongestedState(p, dc, dt).fractionCar < 0.0
    ensures RegimeOf(p, dc, dt) == FullyCongested
  {
    var ct := p.criticalDensityTruck;
    var ft := dt / ct;
    assert ft > 1.0 by {
      assert ft * ct == dt;
      assert (ft - 1.0) * ct == dt - ct;
    }
    assert dc / p.criticalDensityCar >= 0.0;
    var share := 1.0 - ft;
    assert share < 0.0;
    assert dc / share <= 0.0 by {
      assert (dc / share) * share == dc;
    }
  }

  /** Full congestion with positive wave speeds and each density positive
      and at most its class's jam density: the formulas are defined, both
      fractions lie strictly between zero and one, and each class is
      perceived denser than it really is. */
  lemma FullyCongestedUnitShares(p: CellParams, dc: real, dt: real)
    requires 0.0 < p.waveSpeedCar && 0.0 < p.waveSpeedTruck
    requires 0.0 < dc <= p.holdCapCar && 0.0 < dt <= p.holdCapTruck
    ensures FullyCongestedDefined(p, dc, dt)
    ensures var s := FullyCongestedState(p, dc, dt);
      0.0 < s.fractionCar < 1.0 && 0.0 < s.fractionTruck < 1.0 &&
      dc < s.perceivedCar && dt < s.perceivedTruck
  {
    var tc := CongestedWeight(p.holdCapCar, p.waveSpeedCar, dc);
    var tt := CongestedWeight(p.holdCapTruck, p.waveSpeedTruck, dt);
    WeightAtLeastSpeed(p.holdCapCar, p.waveSpeedCar, dc);
    WeightAtLeastSpeed(p.holdCapTruck, p.waveSpeedTruck, dt);
    CongestedSharesProper(p.waveSpeedCar, p.waveSpeedTruck, tc, tt);
    var s := FullyCongestedState(p, dc, dt);
    SpreadAbove(dc, s.fractionCar);
    SpreadAbove(dt, s.fractionTruck);
  }

  /** The comment of the fully congested branch, proved for the guarded
      choice: on a cell whose parameters close the triangular diagram, with
      positive speeds, thresholds and densities and no class above its jam
      density, the fully congested regime perceives cars above rho_1_N and
      trucks above their critical density, with both fractions in (0, 1). */
  lemma FullyCongestedAboveThresholds(p: CellParams, dc: real, dt: real)
    requires p.rho1N * (p.ffsTruck + p.waveSpeedCar) == p.holdCapCar * p.waveSpeedCar
    requires p.criticalDensityTruck * (p.ffsTruck + p.waveSpeedTruck) == p.holdCapTruck * p.waveSpeedTruck
    requires 0.0 < p.waveSpeedCar && 0.0 < p.waveSpeedTruck && 0.0 < p.ffsTruck
    requires 0.0 < p.criticalDensityCar && 0.0 < p.criticalDensityTruck && 0.0 < p.rho1N
    requires 0.0 < dc <= p.holdCapCar && 0.0 < dt <= p.holdCapTruck
    requires RegimeOf(p, dc, dt) == FullyCongested
    ensures Defined(p, dc, dt)
    ensures var s := FlowStateOf(p, dc, dt);
      0.0 < s.fractionCar < 1.0 && 0.0 < s.fractionTruck < 1.0 &&
      p.rho1N < s.perceivedCar && p.criticalDensityTruck < s.perceivedTruck
  {
    FullyCongestedUnitShares(p, dc, dt);
    BeyondSemiCongestion(dc, dt, p.rho1N, p.criticalDensityTruck);
    FullyCongestedProducts(p, dc, dt, FullyCongestedState(p, dc, dt),
                           CongestedWeight(p.holdCapCar, p.waveSpeedCar, dc),
                           CongestedWeight(p.holdCapTruck, p.waveSpeedTruck, dt));
    assert DiagramCloses(p.rho1N, p.ffsTruck, p.waveSpeedCar, p.holdCapCar);
    assert DiagramCloses(p.criticalDensityTruck, p.ffsTruck, p.waveSpeedTruck, p.holdCapTruck);
    CongestedSharesAboveThresholds(p.holdCapCar, p.waveSpeedCar, p.holdCapTruck, p.waveSpeedTruck,
                                   p.ffsTruck, p.rho1N, p.criticalDensityTruck, dc, dt,
                                   CongestedWeight(p.holdCapCar, p.waveSpeedCar, dc),
                                   CongestedWeight(p.holdCapTruck, p.waveSpeedTruck, dt),
                                   FullyCongestedState(p, dc, dt).fractionCar,
                                   FullyCongestedState(p, dc, dt).fractionTruck,
                                   FullyCongestedState(p, dc, dt).perceivedCar,
                                   FullyCongestedState(p, dc, dt).perceivedTruck);
    assert FlowStateOf(p, dc, dt) == FullyCongestedState(p, dc, dt);
  }

  /** The triangular diagram through threshold density rho, free-flow speed
      v, wave speed w and jam density h: rho * (v + w) == h * w. */
  predicate DiagramCloses(rho: real, v: real, w: real, h: real)
  {
    rho * (v + w) == h * w
  }

  /** The fully congested formulas written as products: each weight times its
      density is hold_cap * wave_speed, each share times the sum of the
      weights is its numerator, and each perceived density times its share
      is the real density. */
  predicate CongestedProducts(hc: real, wc: real, ht: real, wt: real, dc: real, dt: real,
                              tc: real, tt: real, fc: real, ft: real, pc: real, pt: real)
  {
    tc * dc == hc * wc && tt * dt == ht * wt && tc + tt != 0.0 &&
    fc * (tc + tt) == wc - wt + tt && ft * (tc + tt) == wt - wc + tc &&
    pc * fc == dc && pt * ft == dt
  }

  /** The state the fully congested branch computes, with its two weights,
      satisfies the product form of its formulas. */
  lemma FullyCongestedProducts(p: CellParams, dc: real, dt: real, s: FlowState, tc: real, tt: real)
    requires FullyCongestedDefined(p, dc, dt) && s == FullyCongestedState(p, dc, dt)
    requires tc == CongestedWeight(p.holdCapCar, p.waveSpeedCar, dc)
    requires tt == CongestedWeight(p.holdCapTruck, p.waveSpeedTruck, dt)
    ensures CongestedProducts(p.holdCapCar, p.waveSpeedCar, p.holdCapTruck, p.waveSpeedTruck, dc, dt,
                              tc, tt, s.fractionCar, s.fractionTruck, s.perceivedCar, s.perceivedTruck)
  {
    SpreadBack(dc, s.fractionCar);
    SpreadBack(dt, s.fractionTruck);
  }

  /** The fully congested shares on plain values: with the diagram closed
      at rho_1_N and the truck critical density, weights tc = hc * wc / dc and
      tt = ht * wt / dt, fractions solving the common-speed equations and
      perceived densities spreading dc and dt over those fractions, both
      classes are perceived above their thresholds once the semi-congested
      test has failed. */
  lemma CongestedSharesAboveThresholds(hc: real, wc: real, ht: real, wt: real, v: real,
                                       rho: real, ct: real, dc: real, dt: real,
                                       tc: real, tt: real, fc: real, ft: real, pc: real, pt: real)
    requires 0.0 < wc && 0.0 < wt && 0.0 < v && 0.0 < rho && 0.0 < ct
    requires 0.0 < dc && 0.0 < dt && 0.0 < fc && 0.0 < ft
    requires DiagramCloses(rho, v, wc, hc) && DiagramCloses(ct, v, wt, ht)
    requires CongestedProducts(hc, wc, ht, wt, dc, dt, tc, tt, fc, ft, pc, pt)
    requires dc / rho + dt / ct > 1.0
    ensures rho < pc && ct < pt
  {
    EqualCongestedSpeeds(wc, wt, tc, tt, fc, ft);
    assert tc * dc == rho * (v + wc) && tt * dt == ct * (v + wt);
    assert tc * fc - (v + wc) == tt * ft - (v + wt);
    assert pc * fc == dc && pt * ft == dt;
    CongestedAboveThresholds(v + wc, v + wt, rho, ct, dc, dt, fc, ft, tc, tt, pc, pt);
  }

  /** hold_cap * wave_speed / density is at least the wave speed when the
      density is positive and at most the jam density. */
  lemma WeightAtLeastSpeed(h: real, w: real, x: real)
    requires 0.0 < w && 0.0 < x <= h
    ensures CongestedWeight(h, w, x) >= w
  {
    assert h * w / x * x == h * w;
    assert h * w >= x * w;
  }

  /** With weights at least the wave speeds, the fully congested shares are
      proper fractions. */
  lemma CongestedSharesProper(wc: real, wt: real, tc: real, tt: real)
    requires 0.0 < wc && 0.0 < wt && wc <= tc && wt <= tt
    ensures 0.0 < (wc - wt + tt) / (tc + tt) < 1.0
    ensures 0.0 < (wt - wc + tc) / (tc + tt) < 1.0
  {
    ProperShare(wc - wt + tt, tc + tt);
    ProperShare(wt - wc + tc, tc + tt);
  }

  lemma ProperShare(a: real, d: real)
    requires 0.0 < a < d
    ensures 0.0 < a / d < 1.0
  {
    var q := a / d;
    assert q * d == a;
    PositiveFactor(q, d, a);
    assert (1.0 - q) * d == d - a;
    PositiveFactor(1.0 - q, d, d - a);
  }

  /** A positive density spread over a proper share grows. */
  lemma SpreadAbove(x: real, f: real)
    requires 0.0 < x && 0.0 < f < 1.0
    ensures x < x / f
  {
    var q := x / f;
    assert q * f == x;
    PositiveFactor(q, f, x);
    ScaleStrict(x, f, 1.0);
    assert f * q == x;
    CancelPositive(f, x, q);
  }

  /** Outside free flow and semi-congestion the car density over rho_1_N and
      the truck share of critical add up to more than one. */
  lemma BeyondSemiCongestion(dc: real, dt: real, rho: real, ct: real)
    requires 0.0 < dc && 0.0 < rho && 0.0 < ct
    requires !(dt / ct < 1.0 && dc / (1.0 - dt / ct) <= rho)
    ensures dc / rho + dt / ct > 1.0
  {
    var y := dt / ct;
    PositiveFactor(dc / rho, rho, dc);
    if y < 1.0 {
      var q := dc / (1.0 - y);
      assert q * (1.0 - y) == dc;
      ScaleStrict(1.0 - y, rho, q);
      assert dc / rho * rho == dc;
      CancelPositive(rho, 1.0 - y, dc / rho);
    }
  }

  /** The fully congested shares give both classes the same congested speed:
      tc * fc - wc == tt * ft - wt. */
  lemma EqualCongestedSpeeds(wc: real, wt: real, tc: real, tt: real, fc: real, ft: real)
    requires tc + tt != 0.0 && fc * (tc + tt) == wc - wt + tt && ft * (tc + tt) == wt - wc + tc
    ensures fc + ft == 1.0 && tc * fc - wc == tt * ft - wt
  {
    var d := tc + tt;
    assert (fc + ft) * d == fc * d + ft * d;
    CancelNonZero(fc + ft, 1.0, d);
    assert tt * ft == tt - tt * fc;
    assert fc * d == tc * fc + tt * fc;
  }

  lemma CancelNonZero(x: real, y: real, d: real)
    requires d != 0.0 && x * d == y * d
    ensures x == y
  {
    assert (x - y) * d == 0.0;
  }

  /** Both classes at one congested speed, with the share-weighted ratios
      rho / perceived adding up to the shares: if the densities over the
      thresholds add up to more than one, each class is perceived above its
      threshold. */
  lemma CongestedAboveThresholds(a: real, b: real, rho: real, ct: real, dc: real, dt: real,
                                 fc: real, ft: real, tc: real, tt: real, pc: real, pt: real)
    requires 0.0 < a && 0.0 < b && 0.0 < rho && 0.0 < ct &&
             0.0 < dc && 0.0 < dt && 0.0 < fc && 0.0 < ft &&
             tc * dc == rho * a && tt * dt == ct * b &&
             dc / rho + dt / ct > 1.0 &&
             fc + ft == 1.0 && tc * fc - a == tt * ft - b &&
             pc * fc == dc && pt * ft == dt
    ensures rho < pc && ct < pt
  {
    var r, s := rho * fc / dc, ct * ft / dt;
    var x, y := dc / rho, dt / ct;
    RatioOfShares(dc, rho, fc);
    RatioOfShares(dt, ct, ft);
    WeightedShare(a, rho, tc, fc, dc);
    WeightedShare(b, ct, tt, ft, dt);
    CommonSpeedBelow(a, b, x, y, r, s);
    BelowPerceived(rho, fc, dc, pc);
    BelowPerceived(ct, ft, dt, pt);
  }

  lemma RatioOfShares(d: real, t: real, f: real)
    requires 0.0 < d && 0.0 < t
    ensures 0.0 < d / t
    ensures (d / t) * (t * f / d) == f
  {
    PositiveFactor(d / t, t, d);
    assert (d / t) * t == d;
    assert (t * f / d) * d == t * f;
    assert (d / t) * (t * f / d) * (t * d) == (d * t) * f;
  }

  lemma WeightedShare(a: real, rho: real, t: real, f: real, d: real)
    requires d != 0.0 && t * d == rho * a
    ensures a * (rho * f / d) == t * f
  {
    assert a * (rho * f / d) == (t * d) * f / d;
  }

  /** If a (r - 1) == b (s - 1) with positive a, b, and x r + y s == 1 while
      x + y > 1 for positive x, y, then r and s are both below one. */
  lemma CommonSpeedBelow(a: real, b: real, x: real, y: real, r: real, s: real)
    requires 0.0 < a && 0.0 < b && 0.0 < x && 0.0 < y && x + y > 1.0
    requires a * r - a == b * s - b && x * r + y * s == 1.0
    ensures r < 1.0 && s < 1.0
  {
    var k := a * (r - 1.0);
    assert k == b * (s - 1.0);
    DivideBack(a, r - 1.0);
    DivideBack(b, s - 1.0);
    assert x * (r - 1.0) + y * (s - 1.0) < 0.0;
    assert k * (x / a + y / b) == x * (k / a) + y * (k / b);
    PositiveFactor(x / a, a, x);
    PositiveFactor(y / b, b, y);
    NegativeFactor(k, x / a + y / b);
  }

  lemma DivideBack(a: real, t: real)
    requires a != 0.0
    ensures (a * t) / a == t
  {
  }

  lemma NegativeFactor(k: real, m: real)
    requires 0.0 < m && k * m < 0.0
    ensures k < 0.0
  {
  }

  /** rho f / d < 1 says rho lies below d spread over the share f. */
  lemma BelowPerceived(rho: real, f: real, d: real, q: real)
    requires 0.0 < f && 0.0 < d && rho * f / d < 1.0 && q * f == d
    ensures rho < q
  {
    assert rho * f / d * d == rho * f;
    ScaleStrict(d, rho * f / d, 1.0);
    assert f * rho < f * q;
    CancelPositive(f, rho, q);
  }

  // ---------------------------------------------------------------------
  // The cell's view: densities from volumes

  /** update_perceived_density can run on these volumes. */
  predicate CellDefined(p: CellParams, flowScalar: real, cellLength: real, volumeCar: int, volumeTruck: int) {
    flowScalar != 0.0 && cellLength != 0.0 &&
    Defined(p, Density(volumeCar, flowScalar, cellLength), Density(volumeTruck, flowScalar, cellLength))
  }

  function CellFlowState(p: CellParams, flowScalar: real, cellLength: real, volumeCar: int, volumeTruck: int): FlowState
    requires CellDefined(p, flowScalar, cellLength, volumeCar, volumeTruck)
  {
    FlowStateOf(p, Density(volumeCar, flowScalar, cellLength), Density(volumeTruck, flowScalar, cellLength))
  }

  // ---------------------------------------------------------------------
  // Demand and supply of a perceived density

  /** get_perceived_demand: the free-flow flow of the perceived density,
      capped at the flow capacity; non-negative when its inputs are. */
  function DemandAt(p: CellParams, cls: VehClass, perceived: real): (r: real)
    ensures r <= p.FlowCap(cls) && r <= p.Ffs(cls) * perceived
    ensures r == p.FlowCap(cls) || r == p.Ffs(cls) * perceived
    ensures 0.0 <= p.FlowCap(cls) && 0.0 <= p.Ffs(cls) && 0.0 <= perceived ==> 0.0 <= r
  {
    Min(p.FlowCap(cls), p.Ffs(cls) * perceived)
  }

  /** get_perceived_supply: the congested-branch flow of the perceived
      density, capped at the flow capacity and floored at zero. */
  function SupplyAt(p: CellParams, cls: VehClass, perceived: real): (r: real)
    ensures 0.0 <= r
    ensures 0.0 <= p.FlowCap(cls) ==> r <= p.FlowCap(cls)
    ensures r > 0.0 ==>
      var cong := p.WaveSpeed(cls) * (p.HoldCap(cls) - perceived);
      r <= p.FlowCap(cls) && r <= cong && (r == p.FlowCap(cls) || r == cong)
    ensures r == 0.0 ==>
      p.FlowCap(cls) <= 0.0 || p.WaveSpeed(cls) * (p.HoldCap(cls) - perceived) <= 0.0
  {
    Max(0.0, Min(p.FlowCap(cls), p.WaveSpeed(cls) * (p.HoldCap(cls) - perceived)))
  }

  /** The flux of one class from a cell into its downstream neighbour: the
      class's space fraction of the smaller of the upstream demand and the
      downstream supply. */
  function FluxOf(cls: VehClass, spaceFraction: real, up: CellParams, upDensity: real,
                  down: CellParams, downDensity: real): real
  {
    spaceFraction * Min(DemandAt(up, cls, upDensity), SupplyAt(down, cls, downDensity))
  }

  /** A denser cell never offers less demand (for a non-negative free-flow
      speed): the free-flow half of the triangular diagram. */
  lemma DemandMonotone(p: CellParams, cls: VehClass, lo: real, hi: real)
    requires lo <= hi && 0.0 <= p.Ffs(cls)
    ensures DemandAt(p, cls, lo) <= DemandAt(p, cls, hi)
  {
    CappedLineMonotone(p.FlowCap(cls), p.Ffs(cls), lo, hi);
  }

  /** A denser cell never offers more supply (for a non-negative wave
      speed): the congested half of the triangular diagram. */
  lemma SupplyAntitone(p: CellParams, cls: VehClass, lo: real, hi: real)
    requires lo <= hi && 0.0 <= p.WaveSpeed(cls)
    ensures SupplyAt(p, cls, hi) <= SupplyAt(p, cls, lo)
  {
    ClampedLineAntitone(p.FlowCap(cls), p.WaveSpeed(cls), p.HoldCap(cls), lo, hi);
  }

  lemma CappedLineMonotone(cap: real, f: real, lo: real, hi: real)
    requires lo <= hi && 0.0 <= f
    ensures Min(cap, f * lo) <= Min(cap, f * hi)
  {
    ScaleMonotone(f, lo, hi);
  }

  lemma ClampedLineAntitone(cap: real, w: real, h: real, lo: real, hi: real)
    requires lo <= hi && 0.0 <= w
    ensures Max(0.0, Min(cap, w * (h - hi))) <= Max(0.0, Min(cap, w * (h - lo)))
  {
    ScaleMonotone(w, h - hi, h - lo);
  }

  lemma ScaleMonotone(f: real, a: real, b: real)
    requires 0.0 <= f && a <= b
    ensures f * a <= f * b
  {
    assert f * b - f * a == f * (b - a);
  }
}
