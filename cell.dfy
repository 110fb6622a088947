/** A cell of a multiclass link: its lane-scaled parameters, its per-class
    FIFO queues of vehicle references and the flow state update_perceived_density
    keeps, with the perceived demand and supply it offers its neighbours. */
module CtmCell {
  import opened CtmTypes
  import opened LinkParams
  import opened CellFlow

  class Cell {
    const cellLength: real
    const unitTime: real
    const flowScalar: real
    const params: CellParams
    /** The cell's index in its link's cell array, upstream first. */
    ghost const position: int

    /** Resident vehicles per class, in discrete (flow-scaled) units. */
    var volumeCar: int
    var volumeTruck: int
    /** How many vehicles of each class leave this cell in the current step. */
    var outVehCar: int
    var outVehTruck: int
    var spaceFractionCar: real
    var spaceFractionTruck: real
    var perceivedDensityCar: real
    var perceivedDensityTruck: real
    /** FIFO per class: the front is the next vehicle to leave. */
    var carQueue: seq<Veh>
    var truckQueue: seq<Veh>

    /** A new cell is empty and schedules no outflow.  The source leaves the
        fractions and perceived densities unset until the first update; here
        they start at zero and nothing is promised about them. */
    constructor (cellLength: real, unitTime: real, params: CellParams, flowScalar: real, ghost position: int)
      ensures this.cellLength == cellLength && this.unitTime == unitTime && this.position == position
      ensures this.params == params && this.flowScalar == flowScalar
      ensures volumeCar == 0 && volumeTruck == 0 && outVehCar == 0 && outVehTruck == 0
      ensures carQueue == [] && truckQueue == []
    {
      this.cellLength := cellLength;
      this.unitTime := unitTime;
      this.flowScalar := flowScalar;
      this.params := params;
      this.position := position;
      volumeCar, volumeTruck := 0, 0;
      outVehCar, outVehTruck := 0, 0;
      spaceFractionCar, spaceFractionTruck := 0.0, 0.0;
      perceivedDensityCar, perceivedDensityTruck := 0.0, 0.0;
      carQueue, truckQueue := [], [];
    }

    function Queue(cls: VehClass): seq<Veh>
      reads this
    {
      if cls == Car then carQueue else truckQueue
    }

    function OutVeh(cls: VehClass): int
      reads this
    {
      if cls == Car then outVehCar else outVehTruck
    }

    function SpaceFraction(cls: VehClass): real
      reads this
    {
      if cls == Car then spaceFractionCar else spaceFractionTruck
    }

    function PerceivedDensity(cls: VehClass): real
      reads this
    {
      if cls == Car then perceivedDensityCar else perceivedDensityTruck
    }

    /** A cell as built: no vehicles, no scheduled outflow. */
    ghost predicate Empty()
      reads this
    {
      volumeCar == 0 && volumeTruck == 0 && outVehCar == 0 && outVehTruck == 0 &&
      carQueue == [] && truckQueue == []
    }

    /** Between two states, the fractions and perceived densities are kept. */
    twostate predicate FlowFieldsKept()
      reads this
    {
      old(spaceFractionCar) == spaceFractionCar && old(spaceFractionTruck) == spaceFractionTruck &&
      old(perceivedDensityCar) == perceivedDensityCar && old(perceivedDensityTruck) == perceivedDensityTruck
    }

    /** Between two states, the queues and the out-counts are kept. */
    twostate predicate QueuesAndOutsKept()
      reads this
    {
      old(carQueue) == carQueue && old(truckQueue) == truckQueue &&
      old(outVehCar) == outVehCar && old(outVehTruck) == outVehTruck
    }

    /** update_perceived_density can run on the current volumes. */
    predicate FlowDefined()
      reads this
    {
      CellDefined(params, flowScalar, cellLength, volumeCar, volumeTruck)
    }

    /** The flow fields hold what the three-regime relation gives for the
        current volumes. */
    ghost predicate FlowUpToDate()
      reads this
    {
      FlowDefined() &&
      var s := CellFlowState(params, flowScalar, cellLength, volumeCar, volumeTruck);
      spaceFractionCar == s.fractionCar && spaceFractionTruck == s.fractionTruck &&
      perceivedDensityCar == s.perceivedCar && perceivedDensityTruck == s.perceivedTruck
    }

    /** update_perceived_density: recomputes the fractions and perceived
        densities from the volumes; nothing else changes. */
    method UpdatePerceivedDensity()
      requires FlowDefined()
      modifies this`spaceFractionCar, this`spaceFractionTruck, this`perceivedDensityCar, this`perceivedDensityTruck
      ensures FlowUpToDate()
    {
      var dc := Density(volumeCar, flowScalar, cellLength);
      var dt := Density(volumeTruck, flowScalar, cellLength);
      var s := FlowStateOf(params, dc, dt);
      spaceFractionCar, spaceFractionTruck := s.fractionCar, s.fractionTruck;
      perceivedDensityCar, perceivedDensityTruck := s.perceivedCar, s.perceivedTruck;
    }

    /** get_perceived_demand of this cell for one class. */
    function PerceivedDemand(cls: VehClass): real
      reads this
    {
      DemandAt(params, cls, PerceivedDensity(cls))
    }

    /** get_perceived_supply of this cell for one class. */
    function PerceivedSupply(cls: VehClass): real
      reads this
    {
      SupplyAt(params, cls, PerceivedDensity(cls))
    }
  }
}
