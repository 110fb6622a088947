# Multiclass cell transmission link (car and truck)

This project models the multiclass link of the MINAMI dynamic network loader
(`src/minami/multiclass.cpp`). The link is a cell transmission model (CTM)
for two vehicle classes, cars and trucks. It follows Qian et al., Transportation
Research Part B 99 (2017) 183-204.

A link is built from per-lane calibration:

- Jam densities and flow capacities for each class are validated and
  clamped. Free-flow speeds are copied as given.
- The triangular fundamental diagram is derived from them: critical
  densities, backward wave speeds, and the class-interaction threshold
  rho_1_N.
- The link is cut into standard cells (what a car covers at free flow in one
  step), and the last cell takes the remainder.

Each cell keeps one FIFO queue of vehicle references per class, per-class
volumes in flow-scaled units, and per-class out-counts. It also keeps the
space fractions and perceived densities from the three-regime relation:
free flow, semi-congestion (trucks free, cars congested) and full
congestion.

One simulation step (`evolve`) works as follows:

1. It schedules every cell's outflow from the perceived demand upstream and
   the perceived supply downstream.
2. It moves the scheduled vehicles one cell downstream, upstream cell first.
3. It drains the terminal cell onto the finished list.
4. It recounts every cell and refreshes its flow state.

Incoming vehicles are admitted into the upstream cell (`clear_incoming_array`).
The link flow is the total volume in real vehicles.

Modules:

- `CtmTypes` (types.dfy): vehicle classes, vehicle references, fatal errors,
  `Result`/`Status`.
- `LinkParams` (params.dfy): validation and clamping, the derived parameters,
  and lane scaling.
- `Discretisation` (discretisation.dfy): the cell count and cell lengths.
- `CellFlow` (flow.dfy): the three-regime perceived-density relation and the
  perceived demand and supply, as pure functions over exact reals.
- `VehQueues` (queues.dfy): queue moves, the effect of one sweep over a
  link's queues, and splitting a mixed queue by class.
- `CtmCell` (cell.dfy): the cell as a class whose fields the step updates in
  place.
- `CtmLink` (link.dfy): the link as a class holding its cells, with the
  step, admission and link-flow methods.

The source stops the simulator with `exit(-1)` on every fatal condition. Here
a fatal condition is an `Abort`/`Fatal` result, and the contracts say exactly
when each one occurs.

## Model

| member | source | states |
|---|---|---|
| LinkParams.ValidateLaneParamsAsWritten | src/minami/multiclass.cpp:33-70 | The constructor's checks as written. The result is fatal iff a jam density or flow capacity is negative, and the jam-density error wins. Jam densities and the car flow capacity are clamped to 300/1600 veh/m and 3500/3600 veh/s. The truck flow capacity passes through unchanged. |
| LinkParams.ValidateLaneParams | src/minami/multiclass.cpp:33-70 | The checks as intended. They have the same fatal cases and errors as the code as written. On success all four capacities are clamped from the raw values and lie between zero and their ceilings. Speeds are copied. |
| LinkParams.TruckFlowCapUnclampedAsWritten | src/minami/multiclass.cpp:59-63 | A truck flow capacity of 1 veh/s per lane is kept by the code as written. That is above the ceiling, and the intended checks cap it at 3500/3600. |
| LinkParams.Derive | src/minami/multiclass.cpp:83-89 | Critical density times free-flow speed is the flow capacity for both classes. The wave speed closes the triangle at the jam density. rho_1_N is where the car congested branch meets the truck free-flow line. |
| LinkParams.Rho1NBetweenCriticalAndJam | src/minami/multiclass.cpp:75-89 | Trucks slower than cars, a positive car capacity and a car jam density above critical are assumed. Then the car wave speed is positive and rho_1_N lies strictly between the car critical density and the car jam density. |
| LinkParams.CrossingBetween | src/minami/multiclass.cpp:85-89 | A congested line of positive capacity, crossed by a slower free-flow line, has a positive wave speed. It meets that line strictly between the critical density and the jam density. |
| LinkParams.ScaleToLanes | src/minami/multiclass.cpp:111-123 | Cell jam densities, flow capacities, critical densities and rho_1_N are the lane values times the lane count. Free-flow speeds and wave speeds are copied. |
| LinkParams.ScaledDiagramConsistent | src/minami/multiclass.cpp:111-123 | Scaling densities and capacities by the lane count and keeping the speeds preserves the diagram's equations. Critical density times speed is still capacity, the triangle still closes, and rho_1_N still marks the crossing. |
| Discretisation.NumCells | src/minami/multiclass.cpp:76-80 | The cell count is never zero. It is floor(length / std) whenever that floor is non-zero, and 1 when the floor is 0. |
| Discretisation.CellLengthsCoverLink | src/minami/multiclass.cpp:76-81 | For a link of positive length there are NumCells cells, at least one. All but the last are standard, and the lengths sum to the link length. The last cell is positive and shorter than two standard cells, and at least one standard cell long when there are two or more. |
| Discretisation.NoCellsWithoutLength | src/minami/multiclass.cpp:131-152 | A link of zero or negative length gets no cells. |
| CtmLink.Link.Create | src/minami/multiclass.cpp:20-92 | Construction is fatal iff a capacity is negative, and the error is the validation's. Otherwise the new link is valid and carries the validated parameters. It has no incoming and no finished vehicles, and every cell is fresh and empty. |
| CtmLink.Link.constructor | src/minami/multiclass.cpp:65-91 | Stores the parameters and builds a valid link. The cells are distinct and cover the link as the discretisation prescribes, and each carries the lane-scaled parameters. Every cell is empty. |
| CtmLink.Link.InitCellArray | src/minami/multiclass.cpp:102-158 | Builds numCells - 1 standard cells, plus one last cell when the length is positive. Every cell is fresh, empty and indexed by its position, and carries the scaled parameters. |
| CtmLink.Link.CellCountMatches | src/minami/multiclass.cpp:76-91 | A valid link of positive length has exactly numCells cells, at least one. |
| CtmCell.Cell.constructor | src/minami/multiclass.cpp:321-358 | A new cell stores its length, time step, scaled parameters and flow scalar. It has zero volumes and out-counts and empty queues. |
| CellFlow.Density | src/minami/multiclass.cpp:368-372 | The density times cell length times flow scalar gives back the discrete volume. It is non-negative for non-negative volumes. |
| CellFlow.FlowStateOf | src/minami/multiclass.cpp:374-398 | The regime is `RegimeOf`, the guarded three-way choice. In free flow each fraction times its critical density is the real density, the fractions sum to at most one, and each class is perceived at its critical density times the sum of the fractions. In semi-congestion the truck fraction times the truck critical density is the truck density. In both congested regimes the fractions sum to exactly one, and each perceived density times its fraction is the real density. |
| CellFlow.FreeFlowShares | src/minami/multiclass.cpp:375-379 | The free-flow fractions are each class's share of its own critical density, and they sum to at most one. Each perceived density is its class's critical density times the sum of the fractions. |
| CellFlow.SemiCongestedPartition | src/minami/multiclass.cpp:382-386 | Trucks keep their free-flow share of their critical density. The semi-congested fractions partition the road, and each perceived density spread over its fraction is the real density. |
| CellFlow.FullyCongestedPartition | src/minami/multiclass.cpp:391-397 | The fully congested fractions partition the road, and each perceived density spread over its fraction is the real density. |
| CellFlow.FullyCongestedUnitShares | src/minami/multiclass.cpp:391-397 | With positive wave speeds and each class's density positive and at most its jam density, the fully congested formulas are defined. Both fractions lie strictly between 0 and 1, and each class is perceived denser than it really is. |
| CellFlow.FullyCongestedAboveThresholds | src/minami/multiclass.cpp:388-398 | The branch's own comment. For a cell whose diagram closes at rho_1_N and at the truck critical density, with positive speeds, thresholds and densities at most jam, the regime that `RegimeOf` reads as fully congested has both fractions in (0, 1). It perceives cars above rho_1_N and trucks above their critical density. |
| CellFlow.FullyCongestedProducts | src/minami/multiclass.cpp:391-397 | The state the fully congested branch computes satisfies its formulas in product form: each weight times its density is jam density times wave speed, each fraction times the weight sum is its numerator, and each perceived density times its fraction is the real density. |
| CellFlow.CongestedSharesAboveThresholds | src/minami/multiclass.cpp:388-398 | On plain values: weights, fractions and perceived densities satisfying those products on a closed diagram, past the semi-congestion test, put both classes above their thresholds. |
| CellFlow.FreeFlowPerceivedBetweenRealAndCritical | src/minami/multiclass.cpp:375-379 | Densities are non-negative and critical densities positive. In free flow the fractions are non-negative, and each perceived density lies between the real density and that class's critical density. |
| CellFlow.SemiCongestedWithinUnitShares | src/minami/multiclass.cpp:381-386 | In semi-congestion both fractions lie strictly between 0 and 1. Trucks are perceived exactly at their critical density, and cars at least at their real density and at most at rho_1_N. |
| CellFlow.FreeFlowSemiBoundaryContinuous | src/minami/multiclass.cpp:375-386 | Where the shares of critical sum to exactly one, the free-flow and semi-congested formulas agree. Both give the same fractions, and both perceive each class at its critical density. |
| CellFlow.RegimeAgreesBelowTruckCritical | src/minami/multiclass.cpp:375-391 | While trucks are below their critical density, the regime choice as written (`RegimeOfAsWritten`, :382 unguarded) and as intended (`RegimeOf`) agree. |
| CellFlow.TrucksAboveCriticalReadAsSemiCongestedAsWritten | src/minami/multiclass.cpp:382-386 | With trucks above their critical density, the test as written picks semi-congestion, with a truck fraction above 1 and a negative car fraction. The guarded test picks full congestion. |
| CellFlow.DemandAt | src/minami/multiclass.cpp:402-412 | The perceived demand is the smaller of the flow capacity and the free-flow speed times the perceived density. It is non-negative when its inputs are. `CtmCell.Cell.PerceivedDemand` applies it to the cell's perceived density of the class. |
| CellFlow.SupplyAt | src/minami/multiclass.cpp:414-425 | The perceived supply is non-negative and at most the flow capacity. When positive, it is the smaller of the capacity and the congested-branch flow. When zero, one of those two is not positive. `CtmCell.Cell.PerceivedSupply` applies it to the cell's perceived density of the class. |
| CellFlow.DemandMonotone | src/minami/multiclass.cpp:402-412 | Perceived demand does not decrease with the perceived density. |
| CellFlow.SupplyAntitone | src/minami/multiclass.cpp:414-425 | Perceived supply does not increase with the perceived density. |
| CtmCell.Cell.UpdatePerceivedDensity | src/minami/multiclass.cpp:366-400 | The fractions and perceived densities become what the three-regime relation gives for the cell's current volumes. Nothing else changes. |
| VehQueues.MoveVehQueue | src/minami/multiclass.cpp:207-214 | k references leave the front of the source queue and join the back of the destination in order. The two queues read together are unchanged. |
| VehQueues.DrainToFinished | src/minami/multiclass.cpp:240-258 | Draining succeeds iff each of the first k vehicles has a next link. On success the queue loses its first k vehicles and the finished list gains them in order. |
| VehQueues.SweepKeepsOrder | src/minami/multiclass.cpp:201-218 | A sweep neither reorders nor loses vehicles. What leaves the terminal cell, followed by the link's queues afterwards (downstream first), equals the queues before. |
| VehQueues.SweepConserves | src/minami/multiclass.cpp:201-218 | A sweep conserves each class's vehicles as a multiset. |
| VehQueues.DrainCompletesSweep | src/minami/multiclass.cpp:201-218 | The sweep over the previous cells, followed by removing the terminal cell's scheduled vehicles, gives every cell exactly its advanced queue. |
| VehQueues.OfClassCons | src/minami/multiclass.cpp:275 | The first incoming vehicle, when of the class, comes first among that class's vehicles. |
| VehQueues.SplitByClassConserves | src/minami/multiclass.cpp:275 | Splitting incoming vehicles by class loses and invents nothing. |
| VehQueues.AdmitUpstreamQueuesLast | src/minami/multiclass.cpp:275 | Appending to the upstream cell's queue puts the admitted vehicles after every vehicle already on the link, in leaving order. |
| CtmLink.Link.ScheduleCell | src/minami/multiclass.cpp:177-189 | Cell i's out-counts become the rounded, flow-scaled one-step flux into cell i + 1. The flux is the space fraction times min(demand, supply), for cars and then trucks. |
| CtmLink.Link.UpdateOutVeh | src/minami/multiclass.cpp:171-194 | Every cell's out-counts become the scheduled ones (`ScheduledOut`). Those are the flux-based counts for every cell but the last, and the last cell's whole queue lengths. |
| CtmLink.Link.ExitedIsTerminal | src/minami/multiclass.cpp:191-192 | The terminal cell is scheduled to send its whole queue, so exactly that queue leaves in the sweep. |
| CtmLink.Link.MoveDownstream | src/minami/multiclass.cpp:205-214 | Cell i's scheduled cars and trucks move to the back of cell i + 1's queues. Every other cell keeps its queues. |
| CtmLink.Link.SweepCells | src/minami/multiclass.cpp:201-216 | After the previous-cells loop the cells hold what the upstream-first sweep prescribes. Only the cells' queues may change, so out-counts, volumes and flow states are kept. |
| CtmLink.Link.MoveLastCell | src/minami/multiclass.cpp:240-258 | Succeeds iff every scheduled car and truck of the terminal cell has a next link, and fails with NoNextLink otherwise. On success those vehicles leave the terminal queues and are appended to the finished list, cars first. Every other cell keeps its queues. |
| CtmLink.Link.RecountCells | src/minami/multiclass.cpp:220-234 | Every cell's volumes become its queue lengths and its flow state is refreshed for them. Queues and out-counts are kept. |
| CtmLink.Link.SweepAndDrain | src/minami/multiclass.cpp:201-218 | The sweep then the drain. It fails exactly when an exiting vehicle has no next link. Otherwise the cells hold the advanced queues and the exited vehicles are finished, cars first. Only the cells' queues and the finished list may change. |
| CtmLink.Link.Advance | src/minami/multiclass.cpp:201-234 | The sweep and drain, then the recount. On success the volumes also match the queues and every flow state is up to date. |
| CtmLink.Link.Evolve | src/minami/multiclass.cpp:196-237 | One step fails iff a vehicle of the terminal cell has no next link. On success every cell holds what the sweep with the scheduled outflows prescribes, and volumes and flow states are up to date. The terminal cell's former cars and trucks are appended to the finished list. The link's vehicles of each class before the step are the exited ones followed by those on the link now, in order. |
| CtmLink.Link.ResidentsAfterSweep | src/minami/multiclass.cpp:196-237 | After a sweep, the vehicles on the link before are the exited ones followed by those on the link now. |
| CtmLink.Link.ClearIncomingArray | src/minami/multiclass.cpp:266-279 | Fails iff the incoming count exceeds the supply times the flow scalar. Otherwise the incoming list is emptied and each vehicle joins the back of the upstream cell's queue of its class, in arrival order. The upstream volumes are recounted. The link's vehicles are the former ones followed by the arrivals, and none is lost or made up. |
| CtmLink.Link.AdmitIncoming | src/minami/multiclass.cpp:275 | Moves every incoming vehicle, in order, to the back of the upstream queue of its class. Every other cell keeps its queues. |
| CtmLink.Link.ResidentsAfterAdmission | src/minami/multiclass.cpp:275-277 | After admission each class's vehicles on the link are the former ones followed by that class's arrivals. The multiset of all vehicles gains exactly the arrivals. |
| CtmLink.Link.GetLinkFlow | src/minami/multiclass.cpp:282-289 | The returned flow times the flow scalar is the total car and truck volume of all cells. |
| CtmLink.Link.LinkFlowCountsResidents | src/minami/multiclass.cpp:282-289 | When volumes match queues, the total volume is the number of vehicles of both classes on the link. |

## Left out

- Printing and `exit(-1)`: every fatal exit is an `Abort`/`Fatal` result. The state after an abort in the middle of `Evolve`/`MoveLastCell` is not specified beyond the failing condition.
- `MNM_Ults::round`, `has_next_link` and a vehicle's class live outside this file. They are function parameters (`round`, `hasNextLink`, `classOf`).
- `get_link_supply` is a stub in the source. `ClearIncomingArray` takes the supply as a parameter.
- `get_link_tt`, `print_info` and the destructors are not part of this model. `get_link_tt` reads single-class fields that this link does not have.
- Floating-point arithmetic is modelled as exact `real`, and `TInt` as unbounded `int`.
- Wherever the source divides, a non-zero divisor is a precondition: `Derivable`, `Defined`/`CellDefined`, and `flowScalar != 0.0` in `GetLinkFlow`. The source performs the division anyway.
- CtmLink.Link.Evolve: outside free flow the formulas divide by each class's share or density. The semi-congested truck density is divided by the truck fraction dt/ct (:386), and the fully congested formulas divide by both densities (:392-397). So `Defined` needs both densities non-zero there, and any cell outside free flow that holds only one class, such as a car-only cell past critical, is outside `Evolve`'s precondition. The model says nothing about a step on such a link.
- CtmLink.Link.Valid: the step, `UpdateOutVeh` and `GetLinkFlow` iterate over the cells the link holds, where the source iterates up to `m_num_cells` (:177, :191, :203, :285). The two agree only when the length and the standard cell length are both positive (`CellCountMatches`), which `Valid` does not demand. With a non-positive standard length, for instance, the source indexes `m_cell_array[m_num_cells - 1]` out of range, while the model's step is defined on whatever cells the link holds.
- CtmLink.Link.UpdateOutVeh: the source reads the link's `m_unit_time` (:182, :188), which the constructor (:20-92) never assigns; `unit_time` only reaches `init_cell_array` at :91. The model stores the constructor's `unitTime` in `Link.unitTime` and uses it there.
- CtmLink.Link.Evolve: the terminal cell's volume line is incomplete in the source. It adds `m_finished_array.size()` and ends with `???`. The model sets the terminal volumes to the queue lengths, as for every other cell.
- CtmLink.Link.MoveLastCell: the source loops over an undefined `_num_veh_tomove` and a single `m_veh_queue`. The model drains the scheduled cars and then the scheduled trucks, as the two counts it reads intend.
- CtmLink.Link.ClearIncomingArray: the source moves everything into a single `m_veh_queue` and sets a single `m_volume`. The model splits the arrivals into the car and truck queues with `classOf` and recounts both volumes.
- CellFlow.FreeFlowState, CellFlow.SemiCongestedState and CellFlow.FullyCongestedState: all three branches (:378-379, :384-386, :396-397) read an undeclared `_space_fraction_truck`/`_space_fraction_car` for the perceived densities. The model uses the fractions the branch has just computed. Likewise `get_perceived_supply`'s out-of-scope `_tmp` is taken as the branch's value.
- LinkParams.ScaledDiagramConsistent: states the scaled equations over the lane values times n, not over the `CellParams` record. `ScaleToLanes` is what ties them together.
- CtmCell.Cell.constructor: the fractions and perceived densities the source leaves unset start at zero, and nothing is promised about them until the first update.

## Findings

| source | as written | input that shows it | evidently intended | confidence | as-written member | corrected member |
|---|---|---|---|---|---|---|
| src/minami/multiclass.cpp:59-63 | The truck-capacity check tests and clamps `lane_flow_cap_car` a second time, so the truck flow capacity is never clamped | lane flow caps car 0.5, truck 1.0 veh/s (jam 0.1, speeds 30 and 20): the truck keeps 1.0 > 3500/3600 | clamp `lane_flow_cap_truck` to 3500/3600 veh/s | not executed | LinkParams.TruckFlowCapUnclampedAsWritten | LinkParams.ValidateLaneParams |
| src/minami/multiclass.cpp:382 | The semi-congestion test divides by `1 - dt/ct` without checking that trucks are below critical; when they are above it, the divisor is negative and the test passes | positive critical densities, rho_1_N >= 0, cars >= 0, trucks above their critical density: read as semi-congested with a truck fraction above 1 and a negative car fraction | semi-congestion only while trucks are free (`dt/ct < 1`); otherwise full congestion | not executed | CellFlow.TrucksAboveCriticalReadAsSemiCongestedAsWritten | CellFlow.SemiCongestedWithinUnitShares |
