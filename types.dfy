/** Vocabulary shared by the multiclass cell transmission model: the two
    vehicle classes, the vehicle references that cell queues hold, and the
    fatal conditions on which the simulator stops. */
module CtmTypes {

  /** The two vehicle classes.  The source tags cars with 1 and treats every
      other tag as a truck. */
  datatype VehClass = Car | Truck

  /** A reference to a simulated vehicle: queues hold references, and the
      vehicles themselves live outside this core. */
  type Veh = nat

  /** The conditions on which the source prints a diagnostic and exits. */
  datatype FatalError =
    | NegativeHoldCap      // a per-lane jam density below zero
    | NegativeFlowCap      // a per-lane flow capacity below zero
    | NoNextLink           // a vehicle leaving the link has no next link
    | IncomingOverSupply   // more staged vehicles than the link admits

  /** A computation that either yields a value or stops the simulator. */
  datatype Result<T> = Ok(value: T) | Fatal(error: FatalError)

  /** The outcome of an operation that changes state in place. */
  datatype Status = Done | Abort(error: FatalError)

  function Min(a: real, b: real): (r: real)
    ensures r <= a && r <= b && (r == a || r == b)
  {
    if a <= b then a else b
  }

  function Max(a: real, b: real): (r: real)
    ensures r >= a && r >= b && (r == a || r == b)
  {
    if a >= b then a else b
  }
}
