/** Calibration of a multiclass link: validation and clamping of the per-lane
    parameters, the derived fundamental-diagram parameters, and the
    lane-scaled copies every cell receives. */
module LinkParams {
  import opened CtmTypes

  /** Ceiling for a per-lane jam density: 300 vehicles per mile, in vehicles per metre. */
  const MaxLaneHoldCap: real := 300.0 / 1600.0
  /** Ceiling for a per-lane flow capacity: 3500 vehicles per hour, in vehicles per second. */
  const MaxLaneFlowCap: real := 3500.0 / 3600.0

  /** Per-lane calibration for both classes: jam density (veh/m), flow
      capacity (veh/s) and free-flow speed (m/s). */
  datatype LaneParams = LaneParams(
    holdCapCar: real, holdCapTruck: real,
    flowCapCar: real, flowCapTruck: real,
    ffsCar: real, ffsTruck: real)

  /** Quantities the link derives once from its calibration, per lane
      except for the wave speeds. */
  datatype LaneDerived = LaneDerived(
    criticalDensityCar: real, criticalDensityTruck: real,
    waveSpeedCar: real, waveSpeedTruck: real,
    rho1N: real)

  /** What each cell holds: the link-level (lane-scaled) capacities and the
      speeds, which do not scale with the lane count. */
  datatype CellParams = CellParams(
    holdCapCar: real, holdCapTruck: real,
    criticalDensityCar: real, criticalDensityTruck: real,
    rho1N: real,
    flowCapCar: real, flowCapTruck: real,
    ffsCar: real, ffsTruck: real,
    waveSpeedCar: real, waveSpeedTruck: real)
  {
    function HoldCap(cls: VehClass): real {
      if cls == Car then holdCapCar else holdCapTruck
    }
    function FlowCap(cls: VehClass): real {
      if cls == Car then flowCapCar else flowCapTruck
    }
    function Ffs(cls: VehClass): real {
      if cls == Car then ffsCar else ffsTruck
    }
    function WaveSpeed(cls: VehClass): real {
      if cls == Car then waveSpeedCar else waveSpeedTruck
    }
  }

  // ---------------------------------------------------------------------
  // Validation and clamping

  function ClampTo(x: real, ceiling: real): real {
    if x > ceiling then ceiling else x
  }

  /** `v` is what clamping `raw` at `ceiling` must give. */
  predicate ClampedFrom(v: real, raw: real, ceiling: real) {
    if raw > ceiling then v == ceiling else v == raw
  }

  predicate HasNegativeCap(raw: LaneParams) {
    raw.holdCapCar < 0.0 || raw.holdCapTruck < 0.0 || raw.flowCapCar < 0.0 || raw.flowCapTruck < 0.0
  }

  /** Every per-lane capacity is non-negative and under its ceiling. */
  predicate WithinCeilings(p: LaneParams) {
    0.0 <= p.holdCapCar <= MaxLaneHoldCap && 0.0 <= p.holdCapTruck <= MaxLaneHoldCap &&
    0.0 <= p.flowCapCar <= MaxLaneFlowCap && 0.0 <= p.flowCapTruck <= MaxLaneFlowCap
  }

  /** The constructor's checks exactly as written: negative jam densities,
      then negative flow capacities, are fatal; jam densities and the car
      flow capacity are clamped; the truck test re-reads the car capacity,
      so the truck flow capacity passes through unclamped. */
  function ValidateLaneParamsAsWritten(raw: LaneParams): (r: Result<LaneParams>)
    ensures r.Fatal? <==> HasNegativeCap(raw)
    ensures r.Fatal? ==> (r.error == NegativeHoldCap <==> raw.holdCapCar < 0.0 || raw.holdCapTruck < 0.0)
    ensures r.Fatal? ==> r.error == NegativeHoldCap || r.error == NegativeFlowCap
    ensures r.Ok? ==>
      ClampedFrom(r.value.holdCapCar, raw.holdCapCar, MaxLaneHoldCap) &&
      ClampedFrom(r.value.holdCapTruck, raw.holdCapTruck, MaxLaneHoldCap) &&
      ClampedFrom(r.value.flowCapCar, raw.flowCapCar, MaxLaneFlowCap) &&
      r.value.flowCapTruck == raw.flowCapTruck &&
      r.value.ffsCar == raw.ffsCar && r.value.ffsTruck == raw.ffsTruck
  {
    if raw.holdCapCar < 0.0 || raw.holdCapTruck < 0.0 then Fatal(NegativeHoldCap)
    else if raw.flowCapCar < 0.0 || raw.flowCapTruck < 0.0 then Fatal(NegativeFlowCap)
    else
      var flowCapCar := ClampTo(raw.flowCapCar, MaxLaneFlowCap);
      // the "truck" test tests and clamps the car capacity a second time
      var flowCapCar' := ClampTo(flowCapCar, MaxLaneFlowCap);
      Ok(raw.(holdCapCar := ClampTo(raw.holdCapCar, MaxLaneHoldCap),
              holdCapTruck := ClampTo(raw.holdCapTruck, MaxLaneHoldCap),
              flowCapCar := flowCapCar'))
  }

  /** The constructor's checks as intended: the same fatal conditions, and
      all four capacities clamped to their ceilings. */
  function ValidateLaneParams(raw: LaneParams): (r: Result<LaneParams>)
    ensures r.Fatal? <==> HasNegativeCap(raw)
    ensures r.Fatal? ==> r == ValidateLaneParamsAsWritten(raw)
    ensures r.Ok? ==> WithinCeilings(r.value)
    ensures r.Ok? ==>
      ClampedFrom(r.value.holdCapCar, raw.holdCapCar, MaxLaneHoldCap) &&
      ClampedFrom(r.value.holdCapTruck, raw.holdCapTruck, MaxLaneHoldCap) &&
      ClampedFrom(r.value.flowCapCar, raw.flowCapCar, MaxLaneFlowCap) &&
      ClampedFrom(r.value.flowCapTruck, raw.flowCapTruck, MaxLaneFlowCap) &&
      r.value.ffsCar == raw.ffsCar && r.value.ffsTruck == raw.ffsTruck
  {
    match ValidateLaneParamsAsWritten(raw)
    case Fatal(e) => Fatal(e)
    case Ok(p) => Ok(p.(flowCapTruck := ClampTo(p.flowCapTruck, MaxLaneFlowCap)))
  }

  /** A truck flow capacity of one vehicle per second per lane is above the
      ceiling, yet the checks as written keep it, where the intended checks
      cap it. */
  lemma TruckFlowCapUnclampedAsWritten()
    ensures var raw := LaneParams(0.1, 0.1, 0.5, 1.0, 30.0, 20.0);
      ValidateLaneParamsAsWritten(raw).Ok? &&
      ValidateLaneParamsAsWritten(raw).value.flowCapTruck == 1.0 > MaxLaneFlowCap &&
      ValidateLaneParams(raw).value.flowCapTruck == MaxLaneFlowCap
  {
  }

  // ---------------------------------------------------------------------
  // Derived parameters

  /** The divisions of the derivation have non-zero divisors. */
  predicate Derivable(p: LaneParams) {
    p.ffsCar != 0.0 && p.ffsTruck != 0.0 &&
    p.holdCapCar != p.flowCapCar / p.ffsCar &&
    p.holdCapTruck != p.flowCapTruck / p.ffsTruck &&
    p.ffsTruck + p.flowCapCar / (p.holdCapCar - p.flowCapCar / p.ffsCar) != 0.0
  }

  /** Critical density, backward wave speed and the class-interaction
      threshold rho_1_N of the triangular fundamental diagram. */
  function Derive(p: LaneParams): (d: LaneDerived)
    requires Derivable(p)
    // the free-flow branch reaches capacity at the critical density
    ensures d.criticalDensityCar * p.ffsCar == p.flowCapCar
    ensures d.criticalDensityTruck * p.ffsTruck == p.flowCapTruck
    // the congested branch reaches the same capacity there: the triangle closes
    ensures d.waveSpeedCar * (p.holdCapCar - d.criticalDensityCar) == p.flowCapCar
    ensures d.waveSpeedTruck * (p.holdCapTruck - d.criticalDensityTruck) == p.flowCapTruck
    // rho_1_N is where the car congested branch meets the truck free-flow line
    ensures p.ffsTruck * d.rho1N == d.waveSpeedCar * (p.holdCapCar - d.rho1N)
  {
    var critCar := p.flowCapCar / p.ffsCar;
    var critTruck := p.flowCapTruck / p.ffsTruck;
    var waveCar := p.flowCapCar / (p.holdCapCar - critCar);
    var waveTruck := p.flowCapTruck / (p.holdCapTruck - critTruck);
    var rho := p.holdCapCar * (waveCar / (p.ffsTruck + waveCar));
    assert (p.ffsTruck + waveCar) * rho == p.holdCapCar * waveCar;
    LaneDerived(critCar, critTruck, waveCar, waveTruck, rho)
  }

  /** With positive capacities, trucks slower than cars (the assumption the
      source states where it picks the standard cell length) and a car jam
      density above the car critical density, the threshold rho_1_N lies
      strictly between the car critical density and the car jam density. */
  lemma Rho1NBetweenCriticalAndJam(p: LaneParams)
    requires Derivable(p)
    requires 0.0 < p.ffsTruck < p.ffsCar && 0.0 < p.flowCapCar
    requires p.flowCapCar / p.ffsCar < p.holdCapCar
    ensures Derive(p).waveSpeedCar > 0.0
    ensures Derive(p).criticalDensityCar < Derive(p).rho1N < p.holdCapCar
  {
    var d := Derive(p);
    assert d.criticalDensityCar < p.holdCapCar;
    CrossingBetween(p.ffsCar, p.ffsTruck, p.flowCapCar, p.holdCapCar, d.criticalDensityCar, d.waveSpeedCar, d.rho1N);
  }

  /** The car congested line through (cc, vc * cc) and (h, 0), with vc * cc
      a positive capacity, has a positive slope magnitude w and meets a
      slower free-flow line vt * x strictly between cc and h. */
  lemma CrossingBetween(vc: real, vt: real, cap: real, h: real, cc: real, w: real, rho: real)
    requires 0.0 < vt < vc && 0.0 < cap && cc < h
    requires cc * vc == cap && w * (h - cc) == cap && vt * rho == w * (h - rho)
    ensures 0.0 < w && cc < rho < h
  {
    PositiveFactor(cc, vc, cap);
    PositiveFactor(w, h - cc, cap);
    var s := vt + w;
    // the crossing solves s * rho == w * h; at the critical density the
    // congested car line is at vc * cc, above the truck free-flow line
    assert s * rho == w * h;
    assert w * h == (vc + w) * cc;
    ScaleStrict(cc, vt, vc);
    assert s * cc < s * rho;
    CancelPositive(s, cc, rho);
    PositiveFactor(h, vt, vt * h);
    assert s * rho < s * h;
    CancelPositive(s, rho, h);
  }

  lemma PositiveFactor(a: real, b: real, c: real)
    requires 0.0 < b && a * b == c && 0.0 < c
    ensures 0.0 < a
  {
  }

  lemma ScaleStrict(x: real, a: real, b: real)
    requires 0.0 < x && a < b
    ensures a * x < b * x
  {
    assert b * x - a * x == (b - a) * x;
  }

  lemma CancelPositive(s: real, x: real, y: real)
    requires 0.0 < s && s * x < s * y
    ensures x < y
  {
  }

  /** Lane scaling: jam densities, critical densities, rho_1_N and flow
      capacities multiply by the lane count; free-flow and wave speeds are
      copied. */
  function ScaleToLanes(lanes: int, p: LaneParams, d: LaneDerived): (c: CellParams)
    ensures c.holdCapCar == lanes as real * p.holdCapCar && c.holdCapTruck == lanes as real * p.holdCapTruck
    ensures c.flowCapCar == lanes as real * p.flowCapCar && c.flowCapTruck == lanes as real * p.flowCapTruck
    ensures c.criticalDensityCar == lanes as real * d.criticalDensityCar &&
            c.criticalDensityTruck == lanes as real * d.criticalDensityTruck
    ensures c.rho1N == lanes as real * d.rho1N
    ensures c.ffsCar == p.ffsCar && c.ffsTruck == p.ffsTruck
    ensures c.waveSpeedCar == d.waveSpeedCar && c.waveSpeedTruck == d.waveSpeedTruck
  {
    var n := lanes as real;
    CellParams(
      n * p.holdCapCar, n * p.holdCapTruck,
      n * d.criticalDensityCar, n * d.criticalDensityTruck,
      n * d.rho1N,
      n * p.flowCapCar, n * p.flowCapTruck,
      p.ffsCar, p.ffsTruck,
      d.waveSpeedCar, d.waveSpeedTruck)
  }

  /** The cell's fundamental diagram is the lane's, scaled: when every
      density and capacity of a closed lane diagram is multiplied by the
      lane count n and the speeds are kept, critical density times free-flow
      speed is still the flow capacity, the wave speed still closes the
      triangle, and rho_1_N still marks where the car congested branch meets
      the truck free-flow line. */
  lemma ScaledDiagramConsistent(n: real, p: LaneParams, d: LaneDerived)
    requires d.criticalDensityCar * p.ffsCar == p.flowCapCar
    requires d.criticalDensityTruck * p.ffsTruck == p.flowCapTruck
    requires d.waveSpeedCar * (p.holdCapCar - d.criticalDensityCar) == p.flowCapCar
    requires d.waveSpeedTruck * (p.holdCapTruck - d.criticalDensityTruck) == p.flowCapTruck
    requires p.ffsTruck * d.rho1N == d.waveSpeedCar * (p.holdCapCar - d.rho1N)
    ensures (n * d.criticalDensityCar) * p.ffsCar == n * p.flowCapCar
    ensures (n * d.criticalDensityTruck) * p.ffsTruck == n * p.flowCapTruck
    ensures d.waveSpeedCar * (n * p.holdCapCar - n * d.criticalDensityCar) == n * p.flowCapCar
    ensures d.waveSpeedTruck * (n * p.holdCapTruck - n * d.criticalDensityTruck) == n * p.flowCapTruck
    ensures p.ffsTruck * (n * d.rho1N) == d.waveSpeedCar * (n * p.holdCapCar - n * d.rho1N)
  {
    ScaleProduct(n, d.criticalDensityCar, p.ffsCar, p.flowCapCar);
    ScaleProduct(n, d.criticalDensityTruck, p.ffsTruck, p.flowCapTruck);
    ScaleDifference(n, d.waveSpeedCar, p.holdCapCar, d.criticalDensityCar, p.flowCapCar);
    ScaleDifference(n, d.waveSpeedTruck, p.holdCapTruck, d.criticalDensityTruck, p.flowCapTruck);
    ScaleCrossing(n, p.ffsTruck, d.rho1N, d.waveSpeedCar, p.holdCapCar);
  }

  lemma ScaleProduct(n: real, a: real, b: real, c: real)
    requires a * b == c
    ensures (n * a) * b == n * c
  {
    assert (n * a) * b == n * (a * b);
  }

  lemma ScaleDifference(n: real, w: real, h: real, x: real, c: real)
    requires w * (h - x) == c
    ensures w * (n * h - n * x) == n * c
  {
    assert w * (n * h - n * x) == n * (w * (h - x));
  }

  lemma ScaleCrossing(n: real, v: real, rho: real, w: real, h: real)
    requires v * rho == w * (h - rho)
    ensures v * (n * rho) == w * (n * h - n * rho)
  {
    assert v * (n * rho) == n * (v * rho);
    assert w * (n * h - n * rho) == n * (w * (h - rho));
  }
}
