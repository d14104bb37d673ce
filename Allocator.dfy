/** The allocator: sorts the outposts by priority, then gives every UAV in
    fleet order one greedy pass over them. Each method is proved to compute
    the corresponding function of module Greedy. */
module Allocator {
  import opened Resources
  import opened Outposts
  import opened Uavs
  import opened Greedy

  class ResourceAllocator {
    var uavs: seq<UAV>
    var outposts: seq<Outpost>

    /** The allocator owns its UAVs and outposts: no object occurs twice. */
    ghost predicate Valid()
      reads this
    {
      (forall i, j :: 0 <= i < j < |uavs| ==> uavs[i] != uavs[j]) &&
      Distinct(outposts)
    }

    /** The outposts' states, in the current order. */
    function Sites(): seq<Site>
      reads this, outposts
    {
      SitesOf(outposts)
    }

    /** The fixed parts of the fleet, in fleet order. */
    function Fleet(): seq<Vehicle>
      reads this
    {
      FleetOf(uavs)
    }

    /** The UAVs' free capacities, in fleet order. */
    function Capacities(): (r: seq<real>)
      reads this, uavs
      ensures |r| == |uavs| && forall k :: 0 <= k < |uavs| ==> r[k] == uavs[k].availableCapacity
    {
      CapacitiesOf(uavs)
    }

    /** Both vectors are taken by value: the allocator works on its own
        copies of the UAVs and outposts. */
    constructor (fleet: seq<UAV>, sites: seq<Outpost>)
      ensures Valid()
      ensures |uavs| == |fleet| && |outposts| == |sites|
      ensures forall k :: 0 <= k < |uavs| ==>
        fresh(uavs[k]) && uavs[k].Spec() == fleet[k].Spec() && uavs[k].availableCapacity == fleet[k].availableCapacity
      ensures forall k :: 0 <= k < |outposts| ==> fresh(outposts[k]) && outposts[k].Snapshot() == sites[k].Snapshot()
    {
      var us := CopyFleet(fleet);
      var os := CopySites(sites);
      uavs := us;
      outposts := os;
    }

    /** Sorts the outposts, then runs every UAV's pass in fleet order. Returns
        for each UAV whether it visited any site (the source only reports this
        on the console) and, as a ghost, the sites' states after sorting. */
    method AllocateResources() returns (delivered: seq<bool>, ghost sorted: seq<Site>)
      requires Valid()
      modifies this, uavs, outposts
      ensures Valid() && uavs == old(uavs)
      ensures multiset(outposts) == multiset(old(outposts)) && Ordered(outposts)
      ensures |sorted| == |outposts| && OrderedSites(sorted)
      ensures forall k :: 0 <= k < |outposts| ==>
        outposts[k] in old(outposts) && sorted[k] == (var o := outposts[k]; old(o.Snapshot()))
      ensures Run(sorted, Fleet()) == RunResult(Sites(), Capacities(), delivered)
      ensures AllNonNegative(sorted) && (forall k :: 0 <= k < |uavs| ==> uavs[k].loadCapacity >= 0.0) ==>
        (forall k :: 0 <= k < |uavs| ==> uavs[k].Valid()) && SitesReduced(Sites(), sorted)
    {
      SortOutposts();
      sorted := Sites();
      OrderedSitesOf(outposts);
      delivered := AllocateInOrder();
      if AllNonNegative(sorted) && forall k :: 0 <= k < |uavs| ==> uavs[k].loadCapacity >= 0.0 {
        RunBounds(sorted, Fleet());
      }
    }

    /** The fleet loop of `allocateResources`, over the outposts in their
        current order: every UAV in fleet order has its turn, starting from
        the state the previous ones left behind. */
    method AllocateInOrder() returns (delivered: seq<bool>)
      requires Valid()
      modifies uavs, outposts
      ensures uavs == old(uavs) && outposts == old(outposts)
      ensures Run(old(Sites()), Fleet()) == RunResult(Sites(), Capacities(), delivered)
    {
      ghost var fleet := Fleet();
      ghost var all := Run(Sites(), fleet);
      ghost var capacities: seq<real> := [];
      RunStart(Sites(), fleet);
      delivered := [];
      for i := 0 to |uavs|
        invariant RanTo(fleet, i, Sites(), capacities, delivered, all)
        invariant forall k :: 0 <= k < i ==> uavs[k].availableCapacity == capacities[k]
      {
        ghost var current := Sites();
        var hasDelivered := TakeTurn(i);
        RunStep(fleet, i, current, capacities, delivered, all);
        capacities := capacities + [uavs[i].availableCapacity];
        delivered := delivered + [hasDelivered];
      }
      RunEnd(fleet, Sites(), capacities, delivered, all);
    }

    /** The i-th UAV's turn, as the fleet loop sees it: no other UAV is touched. */
    method TakeTurn(i: nat) returns (hasDelivered: bool)
      requires Valid() && i < |uavs|
      modifies uavs[i], outposts
      ensures Turn(old(Sites()), uavs[i].loadCapacity, uavs[i].maxDistance) == TurnResult(Sites(), uavs[i].availableCapacity, hasDelivered)
      ensures forall k :: 0 <= k < |uavs| && k != i ==> uavs[k].availableCapacity == old(uavs[k].availableCapacity)
    {
      hasDelivered := AllocateFor(uavs[i]);
      forall k | 0 <= k < |uavs| && k != i ensures uavs[k].availableCapacity == old(uavs[k].availableCapacity) {
        assert uavs[k] != uavs[i];
      }
    }

    /** One UAV's turn, the body of the fleet loop: a reset to full capacity,
        then a scan of the outposts in their current order that skips the
        satisfied and the out-of-range ones, serves every one whose weight
        fits, and stops after the first it can serve only in part. */
    method AllocateFor(uav: UAV) returns (hasDelivered: bool)
      requires Distinct(outposts)
      modifies uav, outposts
      ensures Turn(old(Sites()), uav.loadCapacity, uav.maxDistance) == TurnResult(Sites(), uav.availableCapacity, hasDelivered)
    {
      ghost var before := Sites();
      uav.ResetCapacity();
      assert Sites() == before;
      hasDelivered := false;
      ghost var goal := Turn(before, uav.loadCapacity, uav.maxDistance);
      PassStart(before, uav.loadCapacity, uav.maxDistance);
      var j := 0;
      while j < |outposts|
        modifies uav, outposts
        invariant PassedTo(before, Sites(), j, uav.availableCapacity, uav.maxDistance, hasDelivered, goal)
      {
        var served, last := ScanStep(uav, j, before, hasDelivered, goal);
        if served {
          hasDelivered := true;
        }
        if last {
          break;
        }
        j := j + 1;
      }
      if j == |outposts| {
        PassEnd(before, Sites(), uav.availableCapacity, uav.maxDistance, hasDelivered, goal);
      }
      assert goal == TurnResult(Sites(), uav.availableCapacity, hasDelivered);
    }

    /** One round of the scan in `allocateResources`: the j-th outpost is
        skipped when satisfied or out of range, served in full when its
        weight fits, and otherwise served in part, which ends the scan. */
    method ScanStep(uav: UAV, j: nat, ghost before: seq<Site>, ghost delivered: bool, ghost goal: TurnResult)
      returns (served: bool, last: bool)
      requires Distinct(outposts) && j < |outposts|
      requires PassedTo(before, Sites(), j, uav.availableCapacity, uav.maxDistance, delivered, goal)
      modifies uav, outposts[j]
      ensures last ==> goal == TurnResult(Sites(), uav.availableCapacity, delivered || served)
      ensures !last ==> PassedTo(before, Sites(), j + 1, uav.availableCapacity, uav.maxDistance, delivered || served, goal)
    {
      var outpost := outposts[j];
      var requirements := outpost.GetRequirements();
      var totalUnfulfilledWeight := CalculateUnfulfilledWeight(requirements);
      var distance := outpost.GetDistance();
      var maxDistance := uav.GetMaxDistance();
      ghost var earlier := Sites();
      assert earlier[j].resources == requirements && earlier[j].distance == distance;
      if totalUnfulfilledWeight <= 0.0 || distance > maxDistance {
        PassSkip(before, earlier, j, uav.availableCapacity, maxDistance, delivered, goal);
        return false, false;
      }
      var available := uav.GetAvailableCapacity();
      if totalUnfulfilledWeight <= available {
        PassFull(before, earlier, j, available, maxDistance, delivered, goal);
        Visit(uav, j);
        return true, false;
      } else {
        PassShort(before, earlier, j, available, maxDistance, delivered, goal);
        Visit(uav, j);
        return true, true;
      }
    }

    /** The call `fulfillResourcesPartially(uav, outpost)` on the j-th
        outpost, seen from the allocator: that site alone is served, the
        others keep their state. */
    method Visit(uav: UAV, j: nat)
      requires Distinct(outposts) && j < |outposts|
      modifies uav, outposts[j]
      ensures var f := Fulfil(old(outposts[j].resources), old(uav.availableCapacity));
        Sites() == old(Sites())[j := old(Sites())[j].(resources := f.resources)] && uav.availableCapacity == f.capacity
    {
      ghost var earlier := Sites();
      ghost var f := Fulfil(outposts[j].resources, uav.availableCapacity);
      FulfillResourcesPartially(uav, outposts[j]);
      forall k | 0 <= k < |outposts| ensures Sites()[k] == earlier[j := earlier[j].(resources := f.resources)][k] {
        if k != j { assert outposts[k] != outposts[j]; }
      }
    }

    /** The sum of the outstanding amounts; reads the resources and changes nothing. */
    method CalculateUnfulfilledWeight(resources: seq<Resource>) returns (totalWeight: real)
      ensures totalWeight == Weight(resources)
    {
      totalWeight := 0.0;
      for i := 0 to |resources|
        invariant totalWeight == Weight(resources[..i])
      {
        assert resources[..i + 1] == resources[..i] + [resources[i]];
        WeightAppend(resources[..i], [resources[i]]);
        assert Weight([resources[i]]) == resources[i].unfulfilledAmount by {
          assert [resources[i]][1..] == [];
        }
        totalWeight := totalWeight + resources[i].unfulfilledAmount;
      }
      assert resources[..|resources|] == resources;
    }

    /** Serves one outpost from the UAV's free capacity, in the order the
        resources are stored, working on a copy of the resource list and then
        writing the amounts back one by one. */
    method FulfillResourcesPartially(uav: UAV, outpost: Outpost)
      modifies uav, outpost
      ensures outpost.resources == Fulfil(old(outpost.resources), old(uav.availableCapacity)).resources
      ensures uav.availableCapacity == Fulfil(old(outpost.resources), old(uav.availableCapacity)).capacity
    {
      var requirements := outpost.GetRequirements();
      FulfilKeepsKinds(requirements, uav.availableCapacity);
      requirements := ServeInOrder(uav, requirements);
      WriteBack(outpost, requirements);
    }

    /** The first half of `fulfillResourcesPartially`: walks the copied list
        in stored order, covering each positive amount in full while the UAV
        can and the first one it cannot in part, then stops. */
    method ServeInOrder(uav: UAV, original: seq<Resource>) returns (requirements: seq<Resource>)
      modifies uav
      ensures Fulfil(original, old(uav.availableCapacity)) == Fulfilment(requirements, uav.availableCapacity)
    {
      ghost var goal := Fulfil(original, uav.availableCapacity);
      requirements := original;
      WalkStart(original, uav.availableCapacity);
      var i := 0;
      while i < |requirements|
        invariant WalkedTo(original, requirements, i, uav.availableCapacity, goal)
      {
        if requirements[i].unfulfilledAmount <= 0.0 {
          WalkSkip(original, requirements, i, uav.availableCapacity, goal);
          i := i + 1;
          continue;
        }
        var available := uav.GetAvailableCapacity();
        if requirements[i].unfulfilledAmount <= available {
          WalkFull(original, requirements, i, available, goal);
          assert 0.0 <= requirements[i].unfulfilledAmount <= uav.availableCapacity;
          uav.ReduceCapacity(requirements[i].unfulfilledAmount);
          requirements := requirements[i := requirements[i].(unfulfilledAmount := 0.0)];
        } else {
          WalkShort(original, requirements, i, available, goal);
          requirements := requirements[i := requirements[i].(unfulfilledAmount := requirements[i].unfulfilledAmount - available)];
          available := uav.GetAvailableCapacity();
          uav.ReduceCapacity(available);
          break;
        }
        i := i + 1;
      }
      if i == |requirements| {
        WalkEnd(original, requirements, uav.availableCapacity, goal);
      }
    }

    /** The second half of `fulfillResourcesPartially`: copies the amounts of
        the worked-on list back into the outpost, index by index. The list
        holds the same kinds as the outpost's, so only amounts differ. */
    method WriteBack(outpost: Outpost, requirements: seq<Resource>)
      requires |requirements| == |outpost.resources|
      requires forall k :: 0 <= k < |requirements| ==> requirements[k].kind == outpost.resources[k].kind
      modifies outpost
      ensures outpost.resources == requirements
    {
      ghost var original := outpost.resources;
      for i := 0 to |requirements|
        invariant |outpost.resources| == |requirements|
        invariant forall k :: 0 <= k < i ==> outpost.resources[k] == requirements[k]
        invariant forall k :: i <= k < |requirements| ==> outpost.resources[k] == original[k]
      {
        outpost.SetUnfulfilledAmount(i, requirements[i].unfulfilledAmount);
      }
    }

    /** Sorts the outposts in place by descending urgency, then by ascending
        distance. Only the order changes; no outpost's state does. */
    method SortOutposts()
      requires Valid()
      modifies this
      ensures Valid() && uavs == old(uavs)
      ensures multiset(outposts) == multiset(old(outposts)) && Ordered(outposts)
      ensures forall k :: 0 <= k < |outposts| ==>
        outposts[k] in old(outposts) && Sites()[k] == (var o := outposts[k]; old(o.Snapshot()))
    {
      ghost var initial := outposts;
      outposts := SelectionSort(outposts);
      forall k | 0 <= k < |outposts|
        ensures outposts[k] in old(outposts) && Sites()[k] == (var o := outposts[k]; old(o.Snapshot()))
      {
        assert outposts[k] in multiset(initial);
      }
    }
  }

  /** The by-value copy of the UAV vector: one new UAV per element, in order,
      each a member-wise copy. */
  method CopyFleet(fleet: seq<UAV>) returns (us: seq<UAV>)
    ensures |us| == |fleet|
    ensures forall k :: 0 <= k < |us| ==> fresh(us[k]) && us[k].Spec() == fleet[k].Spec()
    ensures forall k :: 0 <= k < |us| ==> us[k].availableCapacity == fleet[k].availableCapacity
    ensures forall a, b :: 0 <= a < b < |us| ==> us[a] != us[b]
  {
    us := [];
    for i := 0 to |fleet|
      invariant |us| == i
      invariant forall k :: 0 <= k < i ==> fresh(us[k]) && us[k].Spec() == fleet[k].Spec()
      invariant forall k :: 0 <= k < i ==> us[k].availableCapacity == fleet[k].availableCapacity
      invariant forall a, b :: 0 <= a < b < i ==> us[a] != us[b]
    {
      var u := new UAV.Copy(fleet[i]);
      us := us + [u];
    }
  }

  /** The by-value copy of the outpost vector: one new outpost per element,
      in order, each a member-wise copy. */
  method CopySites(sites: seq<Outpost>) returns (os: seq<Outpost>)
    ensures |os| == |sites| && Distinct(os)
    ensures forall k :: 0 <= k < |os| ==> fresh(os[k]) && os[k].Snapshot() == sites[k].Snapshot()
  {
    os := [];
    for i := 0 to |sites|
      invariant |os| == i
      invariant forall k :: 0 <= k < i ==> fresh(os[k]) && os[k].Snapshot() == sites[k].Snapshot()
      invariant Distinct(os)
    {
      var o := new Outpost.Copy(sites[i]);
      os := os + [o];
    }
  }

  /** Reorders outposts into allocation order, by selection sort: the result
      is a permutation of the input, keeps the objects distinct and is ordered. */
  method SelectionSort(os: seq<Outpost>) returns (a: seq<Outpost>)
    requires Distinct(os)
    ensures multiset(a) == multiset(os) && Distinct(a) && Ordered(a)
  {
    a := os;
    var n := |a|;
    for i := 0 to n
      invariant |a| == n
      invariant multiset(a) == multiset(os) && Distinct(a)
      invariant forall p, q :: 0 <= p < i && p < q < n ==> InOrder(a[p], a[q])
    {
      var m := FirstInOrder(a, i);
      SwapMultiset(a, i, m);
      SwapDistinct(a, i, m);
      SelectStep(a, i, m);
      a := a[i := a[m]][m := a[i]];
    }
  }
}
