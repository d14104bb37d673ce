/** A delivery UAV: fixed identity, load capacity and range, and the capacity
    still free on the trip in progress. */
module Uavs {

  /** The fixed part of a UAV, as the allocation specification needs it. */
  datatype Vehicle = Vehicle(id: int, loadCapacity: real, maxDistance: real)

  class UAV {
    const id: int
    const loadCapacity: real
    const maxDistance: real
    var availableCapacity: real

    /** The capacity invariant: free capacity between zero and the load
        capacity. Every UAV ends an allocation in it when amounts and load
        capacities are non-negative. */
    ghost predicate Valid()
      reads this
    {
      0.0 <= availableCapacity <= loadCapacity
    }

    /** The fixed fields, as a value. */
    function Spec(): Vehicle
    {
      Vehicle(id, loadCapacity, maxDistance)
    }

    /** A new UAV starts with its whole load capacity available. */
    constructor (id: int, loadCapacity: real, maxDistance: real)
      ensures this.id == id && this.loadCapacity == loadCapacity && this.maxDistance == maxDistance
      ensures availableCapacity == loadCapacity
      ensures loadCapacity >= 0.0 ==> Valid()
    {
      this.id := id;
      this.loadCapacity := loadCapacity;
      this.maxDistance := maxDistance;
      availableCapacity := loadCapacity;
    }

    /** The implicit member-wise copy made when a UAV is passed by value. */
    constructor Copy(other: UAV)
      ensures id == other.id && loadCapacity == other.loadCapacity && maxDistance == other.maxDistance
      ensures availableCapacity == other.availableCapacity
    {
      id := other.id;
      loadCapacity := other.loadCapacity;
      maxDistance := other.maxDistance;
      availableCapacity := other.availableCapacity;
    }

    function GetId(): (r: int)
      ensures r == id
    {
      id
    }

    function GetAvailableCapacity(): (r: real)
      reads this
      ensures r == availableCapacity
    {
      availableCapacity
    }

    function GetMaxDistance(): (r: real)
      ensures r == maxDistance
    {
      maxDistance
    }

    /** Takes `amount` off the free capacity, without a check and without
        clamping: only an amount between zero and the free capacity keeps the
        capacity invariant. */
    method ReduceCapacity(amount: real)
      modifies this
      ensures availableCapacity == old(availableCapacity) - amount
      ensures 0.0 <= amount <= old(availableCapacity) ==> 0.0 <= availableCapacity <= old(availableCapacity)
      ensures old(Valid()) && 0.0 <= amount <= old(availableCapacity) ==> Valid()
    {
      availableCapacity := availableCapacity - amount;
    }

    /** Restores the full load capacity; the result does not depend on the
        previous free capacity, so a second reset changes nothing. */
    method ResetCapacity()
      modifies this
      ensures availableCapacity == loadCapacity
      ensures loadCapacity >= 0.0 ==> Valid()
    {
      availableCapacity := loadCapacity;
    }
  }

  /** The fixed parts of a fleet, in fleet order. */
  function FleetOf(us: seq<UAV>): (r: seq<Vehicle>)
    ensures |r| == |us|
    ensures forall k :: 0 <= k < |us| ==> r[k] == us[k].Spec()
  {
    if us == [] then [] else [us[0].Spec()] + FleetOf(us[1..])
  }

  /** The free capacities of a fleet, in fleet order. */
  function CapacitiesOf(us: seq<UAV>): (r: seq<real>)
    reads us
    ensures |r| == |us|
    ensures forall k :: 0 <= k < |us| ==> r[k] == us[k].availableCapacity
  {
    if us == [] then [] else [us[0].availableCapacity] + CapacitiesOf(us[1..])
  }
}
