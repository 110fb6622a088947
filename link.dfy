/** The multiclass (car and truck) cell transmission link: construction from
    lane parameters, the cell array, and one simulation step (scheduling
    outflows, sweeping vehicles downstream, draining the terminal cell and
    refreshing every cell's flow state), with admission of incoming
    vehicles and the link flow. */
module CtmLink {
  import opened CtmTypes
  import opened LinkParams
  import opened Discretisation
  import opened CellFlow
  import opened VehQueues
  import opened CtmCell

  /** The number of discrete vehicles a flux carries in one step: the real
      count is scaled by the flow scalar and rounded by the caller-supplied
      rounding. */
  function OutCount(round: real -> int, flux: real, unitTime: real, flowScalar: real): int {
    round(flux * unitTime * flowScalar)
  }

  class Link {
    const id: int
    const numberOfLane: int
    const length: real
    const unitTime: real
    const flowScalar: real
    /** The lane parameters after validation and clamping. */
    const lane: LaneParams
    /** The lane parameters and derived values scaled to the link's lanes. */
    const cellParams: CellParams
    const numCells: int
    /** Upstream first: cells[0] receives incoming vehicles, the last cell
        hands them on. */
    const cells: seq<Cell>

    var incoming: seq<Veh>
    var finished: seq<Veh>

    /** The standard cell length for this link's car speed and time step. */
    function StdLength(): real {
      StdCellLength(lane.ffsCar, unitTime)
    }

    /** Each cell knows its own index, so no cell appears twice. */
    ghost predicate DistinctCells() {
      forall i :: 0 <= i < |cells| ==> cells[i].position == i
    }

    /** The link was built as the constructor builds it: the cells are
        distinct, cover the link as the discretisation prescribes, and all
        carry the link's scaled parameters, time step and flow scalar. */
    ghost predicate Valid() {
      Derivable(lane) && StdLength() != 0.0 &&
      numCells == NumCells(length, StdLength()) &&
      cellParams == ScaleToLanes(numberOfLane, lane, Derive(lane)) &&
      |cells| == |CellLengths(length, StdLength())| &&
      DistinctCells() &&
      forall i :: 0 <= i < |cells| ==>
        cells[i].params == cellParams && cells[i].unitTime == unitTime &&
        cells[i].flowScalar == flowScalar && cells[i].cellLength == CellLengths(length, StdLength())[i]
    }

    /** The constructor's validation followed by construction: a negative
        jam density or flow capacity is fatal (jam densities checked
        first); otherwise the link is built from the clamped parameters. */
    static method Create(id: int, numberOfLane: int, length: real, raw: LaneParams, unitTime: real, flowScalar: real)
      returns (r: Result<Link>)
      requires ValidateLaneParams(raw).Ok? ==>
        Derivable(ValidateLaneParams(raw).value) && StdCellLength(raw.ffsCar, unitTime) != 0.0
      ensures r.Fatal? <==> HasNegativeCap(raw)
      ensures r.Fatal? ==> r.error == ValidateLaneParams(raw).error
      ensures r.Ok? ==>
        fresh(r.value) && r.value.Valid() && r.value.lane == ValidateLaneParams(raw).value &&
        r.value.id == id && r.value.numberOfLane == numberOfLane && r.value.length == length &&
        r.value.unitTime == unitTime && r.value.flowScalar == flowScalar &&
        r.value.incoming == [] && r.value.finished == [] &&
        forall i :: 0 <= i < |r.value.cells| ==> fresh(r.value.cells[i]) && r.value.cells[i].Empty()
    {
      match ValidateLaneParams(raw)
      case Fatal(e) =>
        r := Fatal(e);
      case Ok(lane) =>
        var link := new Link(id, numberOfLane, length, lane, unitTime, flowScalar);
        r := Ok(link);
    }

    /** Stores the validated parameters, derives the cell count and the
        last cell's length, scales the lane parameters and builds the
        cells; nothing is queued yet. */
    constructor (id: int, numberOfLane: int, length: real, lane: LaneParams, unitTime: real, flowScalar: real)
      requires Derivable(lane) && StdCellLength(lane.ffsCar, unitTime) != 0.0
      ensures Valid()
      ensures this.id == id && this.numberOfLane == numberOfLane && this.length == length
      ensures this.lane == lane && this.unitTime == unitTime && this.flowScalar == flowScalar
      ensures incoming == [] && finished == []
      ensures forall i :: 0 <= i < |cells| ==> fresh(cells[i]) && cells[i].Empty()
    {
      var std := StdCellLength(lane.ffsCar, unitTime);
      var n := NumCells(length, std);
      var last := LastCellLength(length, std, n);
      var scaled := ScaleToLanes(numberOfLane, lane, Derive(lane));
      var cs := InitCellArray(n, length, unitTime, std, last, scaled, flowScalar);
      this.id := id;
      this.numberOfLane := numberOfLane;
      this.length := length;
      this.unitTime := unitTime;
      this.flowScalar := flowScalar;
      this.lane := lane;
      this.cellParams := scaled;
      this.numCells := n;
      this.cells := cs;
      incoming := [];
      finished := [];
      new;
      assert forall i :: 0 <= i < |cells| ==> cells[i].cellLength == CellLengths(length, std)[i];
    }

    /** init_cell_array: numCells - 1 standard cells, then, when the link
        has positive length, one last cell of the remaining length; every
        cell is new, empty and carries the scaled parameters. */
    static method InitCellArray(numCells: int, length: real, unitTime: real, stdCellLength: real,
                                lastCellLength: real, params: CellParams, flowScalar: real)
      returns (cells: seq<Cell>)
      ensures |cells| == StdCellCount(numCells) + (if length > 0.0 then 1 else 0)
      ensures forall i :: 0 <= i < |cells| ==>
        fresh(cells[i]) && cells[i].Empty() && cells[i].position == i &&
        cells[i].params == params && cells[i].unitTime == unitTime && cells[i].flowScalar == flowScalar &&
        cells[i].cellLength == (if i < StdCellCount(numCells) then stdCellLength else lastCellLength)
    {
      cells := [];
      var i := 0;
      while i < numCells - 1
        invariant 0 <= i <= StdCellCount(numCells) && |cells| == i
        invariant forall j :: 0 <= j < |cells| ==>
          fresh(cells[j]) && cells[j].Empty() && cells[j].position == j &&
          cells[j].params == params && cells[j].unitTime == unitTime && cells[j].flowScalar == flowScalar &&
          cells[j].cellLength == stdCellLength
      {
        var cell := new Cell(stdCellLength, unitTime, params, flowScalar, i);
        cells := cells + [cell];
        i := i + 1;
      }
      if length > 0.0 {
        var cell := new Cell(lastCellLength, unitTime, params, flowScalar, |cells|);
        cells := cells + [cell];
      }
    }

    /** A link of positive length has exactly numCells cells, at least one. */
    lemma CellCountMatches()
      requires Valid() && 0.0 < length && 0.0 < StdLength()
      ensures |cells| == numCells >= 1
    {
      CellLengthsCoverLink(length, StdLength());
    }

    /** The cell that receives the link's incoming vehicles. */
    function Upstream(): Cell
      requires cells != []
    {
      cells[0]
    }

    /** The cell that hands vehicles on to the next link. */
    function Terminal(): Cell
      requires cells != []
    {
      cells[|cells| - 1]
    }

    // -------------------------------------------------------------------
    // Scheduling outflows

    /** The flux from cell i to cell i + 1: the class's space fraction of
        the smaller of the upstream perceived demand and the downstream
        perceived supply. */
    function Flux(i: int, cls: VehClass): real
      requires 0 <= i < |cells| - 1
      reads cells[i], cells[i + 1]
    {
      var up, down := cells[i], cells[i + 1];
      if cls == Car then
        FluxOf(Car, up.spaceFractionCar, up.params, up.perceivedDensityCar, down.params, down.perceivedDensityCar)
      else
        FluxOf(Truck, up.spaceFractionTruck, up.params, up.perceivedDensityTruck, down.params, down.perceivedDensityTruck)
    }

    /** Each cell's queues, upstream first. */
    ghost function Queues(cls: VehClass): (qs: seq<seq<Veh>>)
      reads cells
      ensures |qs| == |cells|
      ensures forall i {:trigger qs[i]} :: 0 <= i < |cells| ==> qs[i] == cells[i].Queue(cls)
    {
      seq(|cells|, i requires 0 <= i < |cells| reads cells => cells[i].Queue(cls))
    }

    /** Every vehicle of the class on the link, in the order it will leave. */
    ghost function Resident(cls: VehClass): seq<Veh>
      reads cells
    {
      Flatten(Queues(cls))
    }

    /** What update_out_veh schedules for cell i: every cell but the last
        sends the rounded number of vehicles its flux carries in one step;
        the last sends its whole queue. */
    function ScheduledOut(round: real -> int, cls: VehClass, i: int): int
      requires 0 <= i < |cells|
      reads cells
    {
      if i < |cells| - 1 then OutCount(round, Flux(i, cls), unitTime, flowScalar) else |cells[i].Queue(cls)|
    }

    ghost function ScheduledOuts(round: real -> int, cls: VehClass): (outs: seq<int>)
      reads cells
      ensures |outs| == |cells|
      ensures forall i {:trigger outs[i]} :: 0 <= i < |cells| ==> outs[i] == ScheduledOut(round, cls, i)
    {
      seq(|cells|, i requires 0 <= i < |cells| reads cells => ScheduledOut(round, cls, i))
    }

    /** The terminal cell is scheduled to send its whole queue, so what
        leaves it in the sweep is exactly that queue. */
    lemma ExitedIsTerminal(round: real -> int, cls: VehClass)
      requires cells != [] && Schedulable(Queues(cls), ScheduledOuts(round, cls))
      ensures ScheduledOuts(round, cls)[|cells| - 1] == |Terminal().Queue(cls)|
      ensures Exited(Queues(cls), ScheduledOuts(round, cls)) == Terminal().Queue(cls)
    {
      var qs, n := Queues(cls), |cells|;
      assert qs[n - 1][..|qs[n - 1]|] == qs[n - 1];
    }

    /** update_out_veh: sets every cell's out-counts to the scheduled ones;
        nothing else changes. */
    method UpdateOutVeh(round: real -> int)
      requires DistinctCells() && cells != []
      modifies cells`outVehCar, cells`outVehTruck
      ensures forall i {:trigger cells[i].outVehCar} :: 0 <= i < |cells| ==>
        cells[i].outVehCar == old(ScheduledOuts(round, Car))[i]
      ensures forall i {:trigger cells[i].outVehTruck} :: 0 <= i < |cells| ==>
        cells[i].outVehTruck == old(ScheduledOuts(round, Truck))[i]
    {
      ghost var oc, ot := ScheduledOuts(round, Car), ScheduledOuts(round, Truck);
      var n := |cells|;
      var i := 0;
      while i < n - 1
        invariant 0 <= i <= n - 1
        invariant forall j {:trigger cells[j].outVehCar} :: 0 <= j < i ==> cells[j].outVehCar == oc[j]
        invariant forall j {:trigger cells[j].outVehTruck} :: 0 <= j < i ==> cells[j].outVehTruck == ot[j]
      {
        ghost var fc, ft := old(Flux(i, Car)), old(Flux(i, Truck));
        assert oc[i] == OutCount(round, fc, unitTime, flowScalar);
        assert ot[i] == OutCount(round, ft, unitTime, flowScalar);
        assert Flux(i, Car) == fc && Flux(i, Truck) == ft;
        ScheduleCell(round, i);
        i := i + 1;
      }
      cells[n - 1].outVehCar := |cells[n - 1].carQueue|;
      cells[n - 1].outVehTruck := |cells[n - 1].truckQueue|;
    }

    /** One pass of update_out_veh's loop: cell i's out-counts from its
        flux into cell i + 1, cars then trucks. */
    method ScheduleCell(round: real -> int, i: int)
      requires 0 <= i < |cells| - 1
      modifies {cells[i]}`outVehCar, {cells[i]}`outVehTruck
      ensures cells[i].outVehCar == OutCount(round, old(Flux(i, Car)), unitTime, flowScalar)
      ensures cells[i].outVehTruck == OutCount(round, old(Flux(i, Truck)), unitTime, flowScalar)
    {
      var demandCar := cells[i].PerceivedDemand(Car);
      var supplyCar := cells[i + 1].PerceivedSupply(Car);
      var fluxCar := cells[i].spaceFractionCar * Min(demandCar, supplyCar);
      assert fluxCar == Flux(i, Car);
      cells[i].outVehCar := OutCount(round, fluxCar, unitTime, flowScalar);

      var demandTruck := cells[i].PerceivedDemand(Truck);
      var supplyTruck := cells[i + 1].PerceivedSupply(Truck);
      var fluxTruck := cells[i].spaceFractionTruck * Min(demandTruck, supplyTruck);
      assert fluxTruck == old(Flux(i, Truck));
      cells[i].outVehTruck := OutCount(round, fluxTruck, unitTime, flowScalar);
    }



    // -------------------------------------------------------------------
    // One step

    /** move_last_cell: drains the terminal cell's scheduled cars, then its
        scheduled trucks, onto the finished list; a vehicle without a next
        link is fatal.  The ghost arguments name the queues the cells hold
        beforehand; on success every other cell still holds its own. */
    method MoveLastCell(hasNextLink: Veh -> bool, ghost qc: seq<seq<Veh>>, ghost qt: seq<seq<Veh>>)
      returns (status: Status)
      requires DistinctCells() && cells != [] && Holds(qc, qt)
      requires 0 <= Terminal().outVehCar <= |Terminal().carQueue|
      requires 0 <= Terminal().outVehTruck <= |Terminal().truckQueue|
      modifies this`finished, Terminal()`carQueue, Terminal()`truckQueue
      ensures status.Done? <==>
        (forall j :: 0 <= j < Terminal().outVehCar ==> hasNextLink(old(Terminal().carQueue)[j])) &&
        (forall j :: 0 <= j < Terminal().outVehTruck ==> hasNextLink(old(Terminal().truckQueue)[j]))
      ensures status.Abort? ==> status.error == NoNextLink
      ensures status.Done? ==>
        Terminal().carQueue == old(Terminal().carQueue)[Terminal().outVehCar..] &&
        Terminal().truckQueue == old(Terminal().truckQueue)[Terminal().outVehTruck..] &&
        finished == old(finished) + old(Terminal().carQueue)[..Terminal().outVehCar]
                                  + old(Terminal().truckQueue)[..Terminal().outVehTruck]
      ensures status.Done? ==>
        Holds(qc[|cells| - 1 := Terminal().carQueue], qt[|cells| - 1 := Terminal().truckQueue])
    {
      var last := Terminal();
      var ok, queue, done := DrainToFinished(last.carQueue, last.outVehCar, finished, hasNextLink);
      last.carQueue, finished := queue, done;
      if !ok {
        return Abort(NoNextLink);
      }
      ok, queue, done := DrainToFinished(last.truckQueue, last.outVehTruck, finished, hasNextLink);
      last.truckQueue, finished := queue, done;
      if !ok {
        return Abort(NoNextLink);
      }
      status := Done;
      forall i | 0 <= i < |cells| - 1
        ensures cells[i].carQueue == qc[i] && cells[i].truckQueue == qt[i]
      {
        assert cells[i].position != last.position;
      }
    }

    /** A step is possible: the scheduled counts fit the queues, and every
        cell's flow state is defined for the volumes it will hold after the
        sweep. */
    ghost predicate CanEvolve(round: real -> int)
      reads cells
    {
      cells != [] &&
      var qc, oc := Queues(Car), ScheduledOuts(round, Car);
      var qt, ot := Queues(Truck), ScheduledOuts(round, Truck);
      Schedulable(qc, oc) && Schedulable(qt, ot) && DefinedAfterSweep(qc, oc, qt, ot)
    }

    /** Every cell's flow state is defined for the volumes the sweep with
        these queues and out-counts leaves it. */
    ghost predicate DefinedAfterSweep(qc: seq<seq<Veh>>, oc: seq<int>, qt: seq<seq<Veh>>, ot: seq<int>)
      requires Schedulable(qc, oc) && Schedulable(qt, ot)
      reads cells
    {
      |qc| == |cells| && |qt| == |cells| &&
      forall i {:trigger Advanced(qc, oc, i)} :: 0 <= i < |cells| ==>
        CellDefined(cells[i].params, cells[i].flowScalar, cells[i].cellLength,
                    |Advanced(qc, oc, i)|, |Advanced(qt, ot, i)|)
    }

    /** Every cell's volumes count the references it holds. */
    ghost predicate VolumesMatchQueues()
      reads cells
    {
      forall i :: 0 <= i < |cells| ==>
        cells[i].volumeCar == |cells[i].carQueue| && cells[i].volumeTruck == |cells[i].truckQueue|
    }

    /** The cells hold exactly these queues, upstream first. */
    ghost predicate Holds(qc: seq<seq<Veh>>, qt: seq<seq<Veh>>)
      reads cells
    {
      |qc| == |cells| && |qt| == |cells| &&
      (forall i {:trigger cells[i].carQueue} :: 0 <= i < |cells| ==> cells[i].carQueue == qc[i]) &&
      (forall i {:trigger cells[i].truckQueue} :: 0 <= i < |cells| ==> cells[i].truckQueue == qt[i])
    }

    /** The cells' out-counts are exactly these, upstream first. */
    ghost predicate Schedules(oc: seq<int>, ot: seq<int>)
      reads cells
    {
      |oc| == |cells| && |ot| == |cells| &&
      (forall i {:trigger cells[i].outVehCar} :: 0 <= i < |cells| ==> cells[i].outVehCar == oc[i]) &&
      (forall i {:trigger cells[i].outVehTruck} :: 0 <= i < |cells| ==> cells[i].outVehTruck == ot[i])
    }

    lemma HoldsQueues(qc: seq<seq<Veh>>, qt: seq<seq<Veh>>)
      requires Holds(qc, qt)
      ensures Queues(Car) == qc && Queues(Truck) == qt
    {
    }

    /** The "previous cells" loop of evolve: from the upstream cell on,
        each cell but the terminal one moves its scheduled vehicles of each
        class to the back of its downstream neighbour's queue. */
    method SweepCells(ghost qc: seq<seq<Veh>>, ghost qt: seq<seq<Veh>>, ghost oc: seq<int>, ghost ot: seq<int>)
      requires DistinctCells() && cells != []
      requires Holds(qc, qt) && Schedules(oc, ot) && Schedulable(qc, oc) && Schedulable(qt, ot)
      modifies cells`carQueue, cells`truckQueue
      ensures Holds(SweptAll(qc, oc), SweptAll(qt, ot)) && Schedules(oc, ot)
    {
      PartialSweepStart(qc, oc);
      PartialSweepStart(qt, ot);
      var n := |cells|;
      var i := 0;
      while i < n - 1
        invariant 0 <= i <= n - 1
        invariant Holds(PartialSweep(qc, oc, i), PartialSweep(qt, ot, i)) && Schedules(oc, ot)
      {
        PartialSweepStep(qc, oc, i);
        PartialSweepStep(qt, ot, i);
        MoveDownstream(i, PartialSweep(qc, oc, i), PartialSweep(qt, ot, i));
        i := i + 1;
      }
    }

    /** One iteration of that loop: the two move_veh_queue calls, cars then
        trucks, from cell i to its downstream neighbour.  The ghost
        arguments name the queues the cells hold beforehand. */
    method MoveDownstream(i: int, ghost qc: seq<seq<Veh>>, ghost qt: seq<seq<Veh>>)
      requires DistinctCells() && 0 <= i < |cells| - 1 && Holds(qc, qt)
      requires 0 <= cells[i].outVehCar <= |qc[i]| && 0 <= cells[i].outVehTruck <= |qt[i]|
      modifies {cells[i], cells[i + 1]}`carQueue, {cells[i], cells[i + 1]}`truckQueue
      ensures Holds(qc[i := qc[i][cells[i].outVehCar..]][i + 1 := qc[i + 1] + qc[i][..cells[i].outVehCar]],
                    qt[i := qt[i][cells[i].outVehTruck..]][i + 1 := qt[i + 1] + qt[i][..cells[i].outVehTruck]])
    {
      var up, down := cells[i], cells[i + 1];
      assert up.position != down.position;
      var src, dst := MoveVehQueue(up.carQueue, down.carQueue, up.outVehCar);
      up.carQueue, down.carQueue := src, dst;
      src, dst := MoveVehQueue(up.truckQueue, down.truckQueue, up.outVehTruck);
      up.truckQueue, down.truckQueue := src, dst;
      forall j | 0 <= j < |cells| && j != i && j != i + 1
        ensures cells[j].carQueue == qc[j] && cells[j].truckQueue == qt[j]
      {
        assert cells[j].position != up.position && cells[j].position != down.position;
      }
    }

    /** The "update volume" loops of evolve: every cell's volumes become
        its queue lengths and its flow state is recomputed. */
    method RecountCells()
      requires DistinctCells()
      requires forall i :: 0 <= i < |cells| ==>
        CellDefined(cells[i].params, cells[i].flowScalar, cells[i].cellLength,
                    |cells[i].carQueue|, |cells[i].truckQueue|)
      modifies cells
      ensures VolumesMatchQueues()
      ensures forall i :: 0 <= i < |cells| ==> cells[i].FlowUpToDate() && cells[i].QueuesAndOutsKept()
    {
      var i := 0;
      while i < |cells|
        invariant 0 <= i <= |cells|
        invariant forall j :: 0 <= j < i ==>
          cells[j].volumeCar == |cells[j].carQueue| && cells[j].volumeTruck == |cells[j].truckQueue| &&
          cells[j].FlowUpToDate()
        invariant forall j :: 0 <= j < |cells| ==> cells[j].QueuesAndOutsKept()
      {
        cells[i].volumeCar := |cells[i].carQueue|;
        cells[i].volumeTruck := |cells[i].truckQueue|;
        cells[i].UpdatePerceivedDensity();
        i := i + 1;
      }
    }

    /** The movement part of evolve, for scheduled counts already in
        place: the sweep over the previous cells, then move_last_cell.  It
        fails exactly when a vehicle the terminal cell held has no next
        link; otherwise the cells hold what the whole sweep prescribes and
        the terminal cell's former vehicles are finished, cars first. */
    method SweepAndDrain(ghost qc: seq<seq<Veh>>, ghost qt: seq<seq<Veh>>, ghost oc: seq<int>, ghost ot: seq<int>,
                         hasNextLink: Veh -> bool)
      returns (status: Status)
      requires DistinctCells() && cells != []
      requires Holds(qc, qt) && Schedules(oc, ot) && Schedulable(qc, oc) && Schedulable(qt, ot)
      requires oc[|cells| - 1] == |qc[|cells| - 1]| && ot[|cells| - 1] == |qt[|cells| - 1]|
      modifies this`finished, cells`carQueue, cells`truckQueue
      ensures status.Done? <==>
        (forall j :: 0 <= j < |Exited(qc, oc)| ==> hasNextLink(Exited(qc, oc)[j])) &&
        (forall j :: 0 <= j < |Exited(qt, ot)| ==> hasNextLink(Exited(qt, ot)[j]))
      ensures status.Abort? ==> status.error == NoNextLink
      ensures status.Done? ==>
        Holds(AdvanceAll(qc, oc), AdvanceAll(qt, ot)) && Schedules(oc, ot) &&
        finished == old(finished) + Exited(qc, oc) + Exited(qt, ot)
    {
      var n := |cells|;
      // previous cells
      SweepCells(qc, qt, oc, ot);

      // last cell
      DrainCompletesSweep(qc, oc);
      DrainCompletesSweep(qt, ot);
      ghost var sc, st := SweptAll(qc, oc), SweptAll(qt, ot);
      ghost var last := Terminal();
      assert last.carQueue == sc[n - 1] && last.truckQueue == st[n - 1];
      assert Exited(qc, oc) == last.carQueue[..last.outVehCar];
      assert Exited(qt, ot) == last.truckQueue[..last.outVehTruck];
      status := MoveLastCell(hasNextLink, sc, st);
    }

    /** The sweep and drain followed by the "update volume" loops: on
        success every cell also counts its new queues and has its flow state
        refreshed for them. */
    method Advance(ghost qc: seq<seq<Veh>>, ghost qt: seq<seq<Veh>>, ghost oc: seq<int>, ghost ot: seq<int>,
                   hasNextLink: Veh -> bool)
      returns (status: Status)
      requires DistinctCells() && cells != []
      requires Holds(qc, qt) && Schedules(oc, ot) && Schedulable(qc, oc) && Schedulable(qt, ot)
      requires oc[|cells| - 1] == |qc[|cells| - 1]| && ot[|cells| - 1] == |qt[|cells| - 1]|
      requires DefinedAfterSweep(qc, oc, qt, ot)
      modifies this`finished, cells
      ensures status.Done? <==>
        (forall j :: 0 <= j < |Exited(qc, oc)| ==> hasNextLink(Exited(qc, oc)[j])) &&
        (forall j :: 0 <= j < |Exited(qt, ot)| ==> hasNextLink(Exited(qt, ot)[j]))
      ensures status.Abort? ==> status.error == NoNextLink
      ensures status.Done? ==>
        Holds(AdvanceAll(qc, oc), AdvanceAll(qt, ot)) && Schedules(oc, ot) &&
        finished == old(finished) + Exited(qc, oc) + Exited(qt, ot)
      ensures status.Done? ==>
        VolumesMatchQueues() && forall i :: 0 <= i < |cells| ==> cells[i].FlowUpToDate()
    {
      status := SweepAndDrain(qc, qt, oc, ot, hasNextLink);
      if status.Abort? {
        return;
      }
      ghost var f := finished;
      RecountCells();
      assert finished == f;
      assert Holds(AdvanceAll(qc, oc), AdvanceAll(qt, ot)) && Schedules(oc, ot);
    }

    /** evolve: schedules the outflows, moves each cell's scheduled vehicles
        to its downstream neighbour, upstream cell first, drains the
        terminal cell, then recounts every cell and refreshes its flow
        state.  It fails exactly when a vehicle leaving the link has no
        next link.  On success, every cell holds what the sweep prescribes,
        the terminal cell's former vehicles are finished, cars before
        trucks, and every other vehicle is still on the link in the same
        order. */
    method Evolve(round: real -> int, hasNextLink: Veh -> bool) returns (status: Status)
      requires Valid() && CanEvolve(round)
      modifies this`finished, cells
      ensures status.Done? <==>
        (forall j :: 0 <= j < |old(Terminal().carQueue)| ==> hasNextLink(old(Terminal().carQueue)[j])) &&
        (forall j :: 0 <= j < |old(Terminal().truckQueue)| ==> hasNextLink(old(Terminal().truckQueue)[j]))
      ensures status.Abort? ==> status.error == NoNextLink
      ensures status.Done? ==>
        Holds(AdvanceAll(old(Queues(Car)), old(ScheduledOuts(round, Car))),
              AdvanceAll(old(Queues(Truck)), old(ScheduledOuts(round, Truck)))) &&
        Schedules(old(ScheduledOuts(round, Car)), old(ScheduledOuts(round, Truck))) &&
        VolumesMatchQueues() &&
        (forall i :: 0 <= i < |cells| ==> cells[i].FlowUpToDate()) &&
        finished == old(finished) + old(Terminal().carQueue) + old(Terminal().truckQueue)
      ensures status.Done? ==>
        old(Resident(Car)) == old(Terminal().carQueue) + Resident(Car) &&
        old(Resident(Truck)) == old(Terminal().truckQueue) + Resident(Truck)
    {
      ghost var qc, oc := Queues(Car), ScheduledOuts(round, Car);
      ghost var qt, ot := Queues(Truck), ScheduledOuts(round, Truck);
      ExitedIsTerminal(round, Car);
      ExitedIsTerminal(round, Truck);
      ghost var ec, et := Exited(qc, oc), Exited(qt, ot);
      assert ec == Terminal().carQueue && et == Terminal().truckQueue;
      UpdateOutVeh(round);
      assert Holds(qc, qt) && Schedules(oc, ot);
      status := Advance(qc, qt, oc, ot, hasNextLink);
      if status.Done? {
        ResidentsAfterSweep(qc, oc, qt, ot);
      }
    }

    /** Once the cells hold what a sweep prescribes, the vehicles of each
        class on the link beforehand are those that left the terminal cell
        followed by those on the link now, in order. */
    lemma ResidentsAfterSweep(qc: seq<seq<Veh>>, oc: seq<int>, qt: seq<seq<Veh>>, ot: seq<int>)
      requires Schedulable(qc, oc) && Schedulable(qt, ot) && |qc| >= 1 && |qt| >= 1
      requires Holds(AdvanceAll(qc, oc), AdvanceAll(qt, ot))
      ensures Flatten(qc) == Exited(qc, oc) + Resident(Car)
      ensures Flatten(qt) == Exited(qt, ot) + Resident(Truck)
    {
      HoldsQueues(AdvanceAll(qc, oc), AdvanceAll(qt, ot));
      SweepKeepsOrder(qc, oc);
      SweepKeepsOrder(qt, ot);
    }

    // -------------------------------------------------------------------
    // Admission and link flow

    /** clear_incoming_array: more incoming vehicles than the link's supply
        admits (in flow-scaled units) is fatal; otherwise every incoming
        vehicle joins the back of the upstream cell's queue of its class,
        in arrival order, and the upstream cell is recounted. */
    method ClearIncomingArray(supply: real, classOf: Veh -> VehClass) returns (status: Status)
      requires DistinctCells() && cells != []
      modifies this`incoming, Upstream()`carQueue, Upstream()`truckQueue, Upstream()`volumeCar, Upstream()`volumeTruck
      ensures status.Abort? <==> supply * flowScalar < |old(incoming)| as real
      ensures status.Abort? ==> status.error == IncomingOverSupply
      ensures status.Done? ==>
        incoming == [] &&
        cells[0].carQueue == old(cells[0].carQueue) + OfClass(old(incoming), Car, classOf) &&
        cells[0].truckQueue == old(cells[0].truckQueue) + OfClass(old(incoming), Truck, classOf) &&
        cells[0].volumeCar == |cells[0].carQueue| && cells[0].volumeTruck == |cells[0].truckQueue|
      ensures status.Done? ==>
        Resident(Car) == old(Resident(Car)) + OfClass(old(incoming), Car, classOf) &&
        Resident(Truck) == old(Resident(Truck)) + OfClass(old(incoming), Truck, classOf)
      ensures status.Done? ==>
        multiset(Resident(Car)) + multiset(Resident(Truck)) ==
        old(multiset(Resident(Car)) + multiset(Resident(Truck)) + multiset(incoming))
    {
      if supply * flowScalar < |incoming| as real {
        return Abort(IncomingOverSupply);
      }
      ghost var qc, qt, staged := Queues(Car), Queues(Truck), incoming;
      assert Resident(Car) == Flatten(qc) && Resident(Truck) == Flatten(qt);
      var upstream := cells[0];
      AdmitIncoming(classOf, qc, qt);
      ghost var ac, at := qc[0 := qc[0] + OfClass(staged, Car, classOf)], qt[0 := qt[0] + OfClass(staged, Truck, classOf)];
      assert Holds(ac, at);
      upstream.volumeCar := |upstream.carQueue|;
      upstream.volumeTruck := |upstream.truckQueue|;
      status := Done;
      assert Holds(ac, at);
      ResidentsAfterAdmission(qc, qt, staged, classOf);
    }

    /** The loop of clear_incoming_array: every incoming vehicle, in arrival
        order, joins the back of the upstream cell's queue of its class. */
    method AdmitIncoming(classOf: Veh -> VehClass, ghost qc: seq<seq<Veh>>, ghost qt: seq<seq<Veh>>)
      requires DistinctCells() && cells != [] && Holds(qc, qt)
      modifies this`incoming, Upstream()`carQueue, Upstream()`truckQueue
      ensures incoming == []
      ensures Upstream().carQueue == old(Upstream().carQueue) + OfClass(old(incoming), Car, classOf)
      ensures Upstream().truckQueue == old(Upstream().truckQueue) + OfClass(old(incoming), Truck, classOf)
      ensures Holds(qc[0 := qc[0] + OfClass(old(incoming), Car, classOf)], qt[0 := qt[0] + OfClass(old(incoming), Truck, classOf)])
    {
      var upstream := Upstream();
      var carQueue, truckQueue, pending := upstream.carQueue, upstream.truckQueue, incoming;
      while pending != []
        invariant carQueue + OfClass(pending, Car, classOf) == old(upstream.carQueue) + OfClass(old(incoming), Car, classOf)
        invariant truckQueue + OfClass(pending, Truck, classOf) == old(upstream.truckQueue) + OfClass(old(incoming), Truck, classOf)
      {
        var v := pending[0];
        assert pending == [v] + pending[1..];
        OfClassCons(v, pending[1..], Car, classOf);
        OfClassCons(v, pending[1..], Truck, classOf);
        pending := pending[1..];
        if classOf(v) == Car {
          carQueue := carQueue + [v];
        } else {
          truckQueue := truckQueue + [v];
        }
      }
      assert carQueue + OfClass(pending, Car, classOf) == carQueue;
      assert truckQueue + OfClass(pending, Truck, classOf) == truckQueue;
      upstream.carQueue, upstream.truckQueue, incoming := carQueue, truckQueue, [];
      forall j | 0 < j < |cells|
        ensures cells[j].carQueue == qc[j] && cells[j].truckQueue == qt[j]
      {
        assert cells[j].position != upstream.position;
      }
    }

    /** Once the upstream cell holds the arrivals of each class behind what
        it held, the link's vehicles of each class are the former ones
        followed by the arrivals, and no vehicle is lost or made up. */
    lemma ResidentsAfterAdmission(qc: seq<seq<Veh>>, qt: seq<seq<Veh>>, arrivals: seq<Veh>, classOf: Veh -> VehClass)
      requires |qc| >= 1 && |qt| >= 1
      requires Holds(qc[0 := qc[0] + OfClass(arrivals, Car, classOf)], qt[0 := qt[0] + OfClass(arrivals, Truck, classOf)])
      ensures Resident(Car) == Flatten(qc) + OfClass(arrivals, Car, classOf)
      ensures Resident(Truck) == Flatten(qt) + OfClass(arrivals, Truck, classOf)
      ensures multiset(Resident(Car)) + multiset(Resident(Truck)) ==
              multiset(Flatten(qc)) + multiset(Flatten(qt)) + multiset(arrivals)
    {
      HoldsQueues(qc[0 := qc[0] + OfClass(arrivals, Car, classOf)], qt[0 := qt[0] + OfClass(arrivals, Truck, classOf)]);
      AdmitUpstreamQueuesLast(qc, OfClass(arrivals, Car, classOf));
      AdmitUpstreamQueuesLast(qt, OfClass(arrivals, Truck, classOf));
      SplitByClassConserves(arrivals, classOf);
    }

    /** The total volume, in flow-scaled units, of the first k cells. */
    ghost function TotalVolume(k: int): int
      reads cells
      requires 0 <= k <= |cells|
    {
      if k == 0 then 0 else TotalVolume(k - 1) + cells[k - 1].volumeCar + cells[k - 1].volumeTruck
    }

    /** get_link_flow: the link's total volume in real vehicles. */
    method GetLinkFlow() returns (flow: real)
      requires flowScalar != 0.0
      ensures flow * flowScalar == TotalVolume(|cells|) as real
    {
      var total := 0;
      var i := 0;
      while i < |cells|
        invariant 0 <= i <= |cells|
        invariant total == TotalVolume(i)
      {
        total := total + cells[i].volumeCar + cells[i].volumeTruck;
        i := i + 1;
      }
      flow := total as real / flowScalar;
    }

    /** When the volumes are up to date, as after a step or at construction,
        the total volume counts exactly the vehicles on the link. */
    lemma LinkFlowCountsResidents()
      requires VolumesMatchQueues()
      ensures TotalVolume(|cells|) == |Resident(Car)| + |Resident(Truck)|
    {
      VolumeOfPrefix(|cells|);
      assert Queues(Car)[..|cells|] == Queues(Car);
      assert Queues(Truck)[..|cells|] == Queues(Truck);
    }

    lemma {:induction false} VolumeOfPrefix(k: int)
      requires VolumesMatchQueues() && 0 <= k <= |cells|
      ensures TotalVolume(k) == |Flatten(Queues(Car)[..k])| + |Flatten(Queues(Truck)[..k])|
    {
      if k > 0 {
        VolumeOfPrefix(k - 1);
        assert Queues(Car)[..k][..k - 1] == Queues(Car)[..k - 1];
        assert Queues(Truck)[..k][..k - 1] == Queues(Truck)[..k - 1];
      }
    }
  }
}
