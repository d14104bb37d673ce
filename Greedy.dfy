/** The allocation algorithm as functions on values: the effect of
    `fulfillResourcesPartially` on one site (Fulfil), one UAV's pass over the
    sorted sites (Turn) and a whole run over the fleet (Run), with the
    properties the design promises of each. The imperative allocator is
    proved to compute exactly these functions. */
module Greedy {
  import opened Resources
  import opened Outposts
  import opened Uavs

  /** The resources of a site after a visit, and the UAV's capacity left. */
  datatype Fulfilment = Fulfilment(resources: seq<Resource>, capacity: real)

  /** Walks the resources in stored order: skips those with nothing owed,
      zeroes those that fit into the capacity left and, on the first that
      does not fit, takes off all of the capacity left and stops. */
  function Fulfil(rs: seq<Resource>, capacity: real): (r: Fulfilment)
    ensures |r.resources| == |rs|
    decreases |rs|
  {
    if rs == [] then
      Fulfilment([], capacity)
    else if rs[0].unfulfilledAmount <= 0.0 then
      var rest := Fulfil(rs[1..], capacity);
      Fulfilment([rs[0]] + rest.resources, rest.capacity)
    else if rs[0].unfulfilledAmount <= capacity then
      var rest := Fulfil(rs[1..], capacity - rs[0].unfulfilledAmount);
      Fulfilment([rs[0].(unfulfilledAmount := 0.0)] + rest.resources, rest.capacity)
    else
      Fulfilment([rs[0].(unfulfilledAmount := rs[0].unfulfilledAmount - capacity)] + rs[1..], capacity - capacity)
  }

  /** Unfolding Weight over a list with a known first element. */
  lemma WeightCons(x: Resource, rs: seq<Resource>)
    ensures Weight([x] + rs) == x.unfulfilledAmount + Weight(rs)
  {
    assert ([x] + rs)[1..] == rs;
  }

  /** Only amounts change: the number, order and kind of the resources are kept. */
  lemma {:induction false} FulfilKeepsKinds(rs: seq<Resource>, capacity: real)
    ensures forall k :: 0 <= k < |rs| ==> Fulfil(rs, capacity).resources[k].kind == rs[k].kind
    decreases |rs|
  {
    if rs != [] && (rs[0].unfulfilledAmount <= 0.0 || rs[0].unfulfilledAmount <= capacity) {
      var c := if rs[0].unfulfilledAmount <= 0.0 then capacity else capacity - rs[0].unfulfilledAmount;
      FulfilKeepsKinds(rs[1..], c);
      forall k | 1 <= k < |rs| ensures Fulfil(rs, capacity).resources[k].kind == rs[k].kind {
        assert Fulfil(rs, capacity).resources[k] == Fulfil(rs[1..], c).resources[k - 1];
        assert rs[k] == rs[1..][k - 1];
      }
    } else if rs != [] {
      assert Fulfil(rs, capacity).resources[1..] == rs[1..];
      forall k | 1 <= k < |rs| ensures Fulfil(rs, capacity).resources[k].kind == rs[k].kind {
        assert Fulfil(rs, capacity).resources[k] == Fulfil(rs, capacity).resources[1..][k - 1];
      }
    }
  }

  /** One step of Fulfil, taken at position i of the resource list. */
  lemma FulfilAt(rs: seq<Resource>, i: nat, capacity: real)
    requires i < |rs|
    ensures rs[i].unfulfilledAmount <= 0.0 ==>
      Fulfil(rs[i..], capacity) == Fulfilment([rs[i]] + Fulfil(rs[i + 1..], capacity).resources, Fulfil(rs[i + 1..], capacity).capacity)
    ensures 0.0 < rs[i].unfulfilledAmount <= capacity ==>
      Fulfil(rs[i..], capacity) == Fulfilment([rs[i].(unfulfilledAmount := 0.0)] + Fulfil(rs[i + 1..], capacity - rs[i].unfulfilledAmount).resources,
                                              Fulfil(rs[i + 1..], capacity - rs[i].unfulfilledAmount).capacity)
    ensures 0.0 < rs[i].unfulfilledAmount && capacity < rs[i].unfulfilledAmount ==>
      Fulfil(rs[i..], capacity) == Fulfilment([rs[i].(unfulfilledAmount := rs[i].unfulfilledAmount - capacity)] + rs[i + 1..], 0.0)
  {
    assert rs[i..][0] == rs[i] && rs[i..][1..] == rs[i + 1..];
  }

  /** The state of the resource walk after its first i steps: `current` holds
      the first i resources as Fulfil leaves them and the rest untouched, and
      what Fulfil does from `capacity` on the rest completes `goal`. */
  predicate WalkedTo(original: seq<Resource>, current: seq<Resource>, i: nat, capacity: real, goal: Fulfilment)
  {
    i <= |current| == |original| &&
    (forall k :: i <= k < |original| ==> current[k] == original[k]) &&
    goal.resources == current[..i] + Fulfil(original[i..], capacity).resources &&
    goal.capacity == Fulfil(original[i..], capacity).capacity
  }

  lemma WalkStart(original: seq<Resource>, capacity: real)
    ensures WalkedTo(original, original, 0, capacity, Fulfil(original, capacity))
  {
    assert original[0..] == original;
  }

  lemma WalkSkip(original: seq<Resource>, current: seq<Resource>, i: nat, capacity: real, goal: Fulfilment)
    requires WalkedTo(original, current, i, capacity, goal) && i < |current|
    requires current[i].unfulfilledAmount <= 0.0
    ensures WalkedTo(original, current, i + 1, capacity, goal)
  {
    FulfilAt(original, i, capacity);
    var next := Fulfil(original[i + 1..], capacity);
    assert goal.resources == current[..i] + ([original[i]] + next.resources);
    assert current[..i + 1] == current[..i] + [original[i]];
  }

  lemma WalkFull(original: seq<Resource>, current: seq<Resource>, i: nat, capacity: real, goal: Fulfilment)
    requires WalkedTo(original, current, i, capacity, goal) && i < |current|
    requires 0.0 < current[i].unfulfilledAmount <= capacity
    ensures WalkedTo(original, current[i := current[i].(unfulfilledAmount := 0.0)], i + 1,
                     capacity - current[i].unfulfilledAmount, goal)
  {
    assert current[i] == original[i];
    FulfilAt(original, i, capacity);
    var next := Fulfil(original[i + 1..], capacity - current[i].unfulfilledAmount);
    var updated := current[i := current[i].(unfulfilledAmount := 0.0)];
    assert goal.resources == current[..i] + ([updated[i]] + next.resources) && goal.capacity == next.capacity;
    assert updated[..i + 1] == current[..i] + [updated[i]];
    assert goal.resources == updated[..i + 1] + next.resources;
    assert forall k :: i + 1 <= k < |original| ==> updated[k] == current[k];
  }

  lemma WalkShort(original: seq<Resource>, current: seq<Resource>, i: nat, capacity: real, goal: Fulfilment)
    requires WalkedTo(original, current, i, capacity, goal) && i < |current|
    requires 0.0 < current[i].unfulfilledAmount && capacity < current[i].unfulfilledAmount
    ensures goal == Fulfilment(current[i := current[i].(unfulfilledAmount := current[i].unfulfilledAmount - capacity)], 0.0)
  {
    FulfilAt(original, i, capacity);
    var updated := current[i := current[i].(unfulfilledAmount := current[i].unfulfilledAmount - capacity)];
    assert original[i + 1..] == updated[i + 1..];
    assert updated == current[..i] + ([updated[i]] + original[i + 1..]);
  }

  lemma WalkEnd(original: seq<Resource>, current: seq<Resource>, capacity: real, goal: Fulfilment)
    requires WalkedTo(original, current, |current|, capacity, goal)
    ensures goal == Fulfilment(current, capacity)
  {
    assert original[|current|..] == [] && current[..|current|] == current;
  }

  /** Conservation of mass: what leaves the UAV's capacity is exactly what
      leaves the site's outstanding weight. */
  lemma {:induction false} FulfilConservesMass(rs: seq<Resource>, capacity: real)
    ensures Weight(rs) - Weight(Fulfil(rs, capacity).resources) == capacity - Fulfil(rs, capacity).capacity
    decreases |rs|
  {
    if rs != [] {
      var f := Fulfil(rs, capacity);
      if rs[0].unfulfilledAmount <= 0.0 {
        FulfilConservesMass(rs[1..], capacity);
        WeightCons(rs[0], Fulfil(rs[1..], capacity).resources);
      } else if rs[0].unfulfilledAmount <= capacity {
        FulfilConservesMass(rs[1..], capacity - rs[0].unfulfilledAmount);
        WeightCons(rs[0].(unfulfilledAmount := 0.0), Fulfil(rs[1..], capacity - rs[0].unfulfilledAmount).resources);
      } else {
        WeightCons(rs[0].(unfulfilledAmount := rs[0].unfulfilledAmount - capacity), rs[1..]);
      }
    }
  }

  /** The capacity left stays between zero and what the UAV had on arrival;
      on well-formed amounts, amounts never rise and never drop below zero. */
  lemma {:induction false} FulfilBounds(rs: seq<Resource>, capacity: real)
    requires capacity >= 0.0
    ensures 0.0 <= Fulfil(rs, capacity).capacity <= capacity
    ensures NonNegative(rs) ==> Reduced(Fulfil(rs, capacity).resources, rs)
    decreases |rs|
  {
    if rs != [] {
      var f := Fulfil(rs, capacity);
      if rs[0].unfulfilledAmount <= 0.0 {
        FulfilBounds(rs[1..], capacity);
      } else if rs[0].unfulfilledAmount <= capacity {
        FulfilBounds(rs[1..], capacity - rs[0].unfulfilledAmount);
      }
      if NonNegative(rs) {
        assert NonNegative(rs[1..]) by {
          forall k | 0 <= k < |rs| - 1 ensures rs[1..][k].unfulfilledAmount >= 0.0 {
            assert rs[1..][k] == rs[k + 1];
          }
        }
        forall k | 1 <= k < |rs|
          ensures f.resources[k].kind == rs[k].kind
          ensures 0.0 <= f.resources[k].unfulfilledAmount <= rs[k].unfulfilledAmount
        {
          assert rs[k] == rs[1..][k - 1];
        }
      }
    }
  }

  /** A site whose whole weight fits is fully served: every resource ends
      at zero and the UAV keeps what is left over. */
  lemma {:induction false} FulfilWhenFits(rs: seq<Resource>, capacity: real)
    requires NonNegative(rs) && Weight(rs) <= capacity
    ensures forall k :: 0 <= k < |rs| ==> Fulfil(rs, capacity).resources[k].unfulfilledAmount == 0.0
    ensures Fulfil(rs, capacity).capacity == capacity - Weight(rs)
    decreases |rs|
  {
    if rs != [] {
      var f := Fulfil(rs, capacity);
      assert NonNegative(rs[1..]) by {
        forall k | 0 <= k < |rs| - 1 ensures rs[1..][k].unfulfilledAmount >= 0.0 {
          assert rs[1..][k] == rs[k + 1];
        }
      }
      var rest;
      if rs[0].unfulfilledAmount <= 0.0 {
        FulfilWhenFits(rs[1..], capacity);
        rest := Fulfil(rs[1..], capacity);
      } else {
        assert rs[0].unfulfilledAmount <= capacity;
        FulfilWhenFits(rs[1..], capacity - rs[0].unfulfilledAmount);
        rest := Fulfil(rs[1..], capacity - rs[0].unfulfilledAmount);
      }
      assert f.resources == [f.resources[0]] + rest.resources;
    }
  }

  /** `after` is `before` served up to index k: every resource before k at
      zero, the one at k lowered but still positive, the ones after k untouched. */
  predicate PartlyServedAt(after: seq<Resource>, before: seq<Resource>, k: int)
  {
    0 <= k < |before| == |after| &&
    (forall m :: 0 <= m < k ==> after[m].unfulfilledAmount == 0.0) &&
    0.0 < after[k].unfulfilledAmount <= before[k].unfulfilledAmount &&
    after[k + 1..] == before[k + 1..]
  }

  lemma PartlyServedCons(x: Resource, after: seq<Resource>, y: Resource, before: seq<Resource>, k: int)
    requires PartlyServedAt(after, before, k) && x.unfulfilledAmount == 0.0
    ensures PartlyServedAt([x] + after, [y] + before, k + 1)
  {
    var a, b := [x] + after, [y] + before;
    assert a[k + 2..] == after[k + 1..];
    assert b[k + 2..] == before[k + 1..];
    forall m | 1 <= m < k + 1 ensures a[m].unfulfilledAmount == 0.0 {
      assert a[m] == after[m - 1];
    }
  }

  /** A site whose weight exceeds the capacity is partly served: the UAV
      ends empty, every resource before some index k ends at zero, the one at
      k keeps a positive remainder, and those after k are untouched. */
  lemma {:induction false} FulfilWhenShort(rs: seq<Resource>, capacity: real)
    requires NonNegative(rs) && 0.0 <= capacity < Weight(rs)
    ensures Fulfil(rs, capacity).capacity == 0.0
    ensures exists k :: PartlyServedAt(Fulfil(rs, capacity).resources, rs, k)
    decreases |rs|
  {
    var f := Fulfil(rs, capacity);
    assert rs != [];
    if rs[0].unfulfilledAmount > capacity {
      assert f.resources[1..] == rs[1..];
      assert PartlyServedAt(f.resources, rs, 0);
    } else {
      assert NonNegative(rs[1..]) by {
        forall k | 0 <= k < |rs| - 1 ensures rs[1..][k].unfulfilledAmount >= 0.0 {
          assert rs[1..][k] == rs[k + 1];
        }
      }
      var c := if rs[0].unfulfilledAmount <= 0.0 then capacity else capacity - rs[0].unfulfilledAmount;
      FulfilWhenShort(rs[1..], c);
      var rest := Fulfil(rs[1..], c);
      var j :| PartlyServedAt(rest.resources, rs[1..], j);
      PartlyServedCons(f.resources[0], rest.resources, rs[0], rs[1..], j);
      assert f.resources == [f.resources[0]] + rest.resources;
      assert rs == [rs[0]] + rs[1..];
    }
  }

  /** The total outstanding weight of a list of sites. */
  function TotalWeight(sites: seq<Site>): real
  {
    if sites == [] then 0.0 else Weight(sites[0].resources) + TotalWeight(sites[1..])
  }

  predicate AllNonNegative(sites: seq<Site>)
  {
    forall k :: 0 <= k < |sites| ==> NonNegative(sites[k].resources)
  }

  /** `after` is `before` with some amounts lowered and nothing else changed. */
  predicate SitesReduced(after: seq<Site>, before: seq<Site>)
  {
    |after| == |before| &&
    forall k :: 0 <= k < |after| ==>
      SameSite(after[k], before[k]) && Reduced(after[k].resources, before[k].resources)
  }

  /** Lowering amounts site by site never raises any site's weight, nor the
      total, nor makes either negative. */
  lemma {:induction false} SitesReducedWeight(after: seq<Site>, before: seq<Site>)
    requires SitesReduced(after, before)
    ensures forall k :: 0 <= k < |after| ==>
      0.0 <= Weight(after[k].resources) <= Weight(before[k].resources)
    ensures 0.0 <= TotalWeight(after) <= TotalWeight(before)
    decreases |after|
  {
    forall k | 0 <= k < |after|
      ensures 0.0 <= Weight(after[k].resources) <= Weight(before[k].resources)
    {
      ReducedWeight(after[k].resources, before[k].resources);
    }
    if after != [] {
      assert SitesReduced(after[1..], before[1..]) by {
        forall k | 0 <= k < |after| - 1
          ensures after[1..][k] == after[k + 1] && before[1..][k] == before[k + 1]
        {
        }
      }
      SitesReducedWeight(after[1..], before[1..]);
    }
  }

  /** A site a UAV with range `maxDistance` will visit when its scan reaches
      it: something is still owed and it is within range. */
  predicate Serviceable(s: Site, maxDistance: real)
  {
    Weight(s.resources) > 0.0 && s.distance <= maxDistance
  }

  /** One UAV's pass: its sites (in sorted order) after the pass, its
      capacity left and whether it visited any site. */
  datatype TurnResult = TurnResult(sites: seq<Site>, capacity: real, delivered: bool)

  /** Scans the sites from the start: skips satisfied and out-of-range sites,
      fully serves a site whose weight fits and goes on, partly serves a site
      whose weight does not fit and ends the pass there. */
  function Turn(sites: seq<Site>, capacity: real, maxDistance: real): (r: TurnResult)
    ensures |r.sites| == |sites|
    decreases |sites|
  {
    if sites == [] then
      TurnResult([], capacity, false)
    else
      var s := sites[0];
      var w := Weight(s.resources);
      if w <= 0.0 || s.distance > maxDistance then
        var rest := Turn(sites[1..], capacity, maxDistance);
        TurnResult([s] + rest.sites, rest.capacity, rest.delivered)
      else
        var f := Fulfil(s.resources, capacity);
        if w <= capacity then
          var rest := Turn(sites[1..], f.capacity, maxDistance);
          TurnResult([s.(resources := f.resources)] + rest.sites, rest.capacity, true)
        else
          TurnResult([s.(resources := f.resources)] + sites[1..], f.capacity, true)
  }

  /** A pass changes only amounts: every site keeps its identity, distance,
      urgency and the number, order and kind of its resources. */
  lemma {:induction false} TurnKeepsSites(sites: seq<Site>, capacity: real, maxDistance: real)
    ensures forall k :: 0 <= k < |sites| ==> SameSite(Turn(sites, capacity, maxDistance).sites[k], sites[k])
    decreases |sites|
  {
    if sites != [] {
      var r := Turn(sites, capacity, maxDistance);
      var s := sites[0];
      var w := Weight(s.resources);
      FulfilKeepsKinds(s.resources, capacity);
      var c := if w <= 0.0 || s.distance > maxDistance then capacity else Fulfil(s.resources, capacity).capacity;
      TurnKeepsSites(sites[1..], c, maxDistance);
      var rest := Turn(sites[1..], c, maxDistance);
      if w <= 0.0 || s.distance > maxDistance || w <= capacity {
        assert r.sites == [r.sites[0]] + rest.sites;
        forall k | 1 <= k < |sites| ensures SameSite(r.sites[k], sites[k]) {
          assert sites[k] == sites[1..][k - 1] && r.sites[k] == rest.sites[k - 1];
        }
      } else {
        assert r.sites[1..] == sites[1..];
      }
    }
  }

  lemma TotalWeightCons(s: Site, sites: seq<Site>)
    ensures TotalWeight([s] + sites) == Weight(s.resources) + TotalWeight(sites)
  {
    assert ([s] + sites)[1..] == sites;
  }

  /** Conservation of mass over a pass: what the UAV loaded is what the
      sites' total outstanding weight went down by. */
  lemma {:induction false} TurnConservesMass(sites: seq<Site>, capacity: real, maxDistance: real)
    ensures capacity - Turn(sites, capacity, maxDistance).capacity
         == TotalWeight(sites) - TotalWeight(Turn(sites, capacity, maxDistance).sites)
    decreases |sites|
  {
    if sites != [] {
      var s := sites[0];
      var w := Weight(s.resources);
      if w <= 0.0 || s.distance > maxDistance {
        TurnConservesMass(sites[1..], capacity, maxDistance);
        TotalWeightCons(s, Turn(sites[1..], capacity, maxDistance).sites);
      } else {
        var f := Fulfil(s.resources, capacity);
        FulfilConservesMass(s.resources, capacity);
        if w <= capacity {
          TurnConservesMass(sites[1..], f.capacity, maxDistance);
          TotalWeightCons(s.(resources := f.resources), Turn(sites[1..], f.capacity, maxDistance).sites);
        } else {
          TotalWeightCons(s.(resources := f.resources), sites[1..]);
        }
      }
    }
  }

  lemma AllNonNegativeTail(sites: seq<Site>)
    requires sites != [] && AllNonNegative(sites)
    ensures AllNonNegative(sites[1..])
  {
    forall k | 0 <= k < |sites| - 1 ensures NonNegative(sites[1..][k].resources) {
      assert sites[1..][k] == sites[k + 1];
    }
  }

  /** Over a pass the UAV's capacity stays between zero and what it started
      with, and every amount only goes down and stays non-negative. */
  lemma {:induction false} TurnBounds(sites: seq<Site>, capacity: real, maxDistance: real)
    requires AllNonNegative(sites) && capacity >= 0.0
    ensures 0.0 <= Turn(sites, capacity, maxDistance).capacity <= capacity
    ensures SitesReduced(Turn(sites, capacity, maxDistance).sites, sites)
    decreases |sites|
  {
    if sites != [] {
      var r := Turn(sites, capacity, maxDistance);
      var s := sites[0];
      var w := Weight(s.resources);
      AllNonNegativeTail(sites);
      assert Reduced(s.resources, s.resources);
      var c := capacity;
      if w <= 0.0 || s.distance > maxDistance {
        TurnBounds(sites[1..], capacity, maxDistance);
      } else {
        FulfilBounds(s.resources, capacity);
        c := Fulfil(s.resources, capacity).capacity;
        if w <= capacity {
          TurnBounds(sites[1..], c, maxDistance);
        } else {
          assert r.sites[1..] == sites[1..];
          forall k | 1 <= k < |sites| ensures Reduced(sites[k].resources, sites[k].resources) { }
        }
      }
      forall k | 1 <= k < |sites|
        ensures SameSite(r.sites[k], sites[k]) && Reduced(r.sites[k].resources, sites[k].resources)
      {
        assert sites[k] == sites[1..][k - 1];
      }
    }
  }

  /** A site with nothing owed, or out of the UAV's range, is left untouched. */
  lemma {:induction false} TurnSkips(sites: seq<Site>, capacity: real, maxDistance: real, k: nat)
    requires k < |sites| && !Serviceable(sites[k], maxDistance)
    ensures Turn(sites, capacity, maxDistance).sites[k] == sites[k]
    decreases k
  {
    var s := sites[0];
    var w := Weight(s.resources);
    if k > 0 {
      assert sites[k] == sites[1..][k - 1];
      if w <= 0.0 || s.distance > maxDistance {
        TurnSkips(sites[1..], capacity, maxDistance, k - 1);
      } else if w <= capacity {
        TurnSkips(sites[1..], Fulfil(s.resources, capacity).capacity, maxDistance, k - 1);
      }
    }
  }

  /** After a partial fulfilment the pass ends: once an in-range site is
      left with something still owed, every later site is untouched. */
  lemma {:induction false} TurnStopsAfterPartial(sites: seq<Site>, capacity: real, maxDistance: real, k: nat, m: nat)
    requires AllNonNegative(sites) && capacity >= 0.0
    requires k < m < |sites|
    requires sites[k].distance <= maxDistance
    requires Weight(Turn(sites, capacity, maxDistance).sites[k].resources) > 0.0
    ensures Turn(sites, capacity, maxDistance).sites[m] == sites[m]
    decreases k
  {
    var r := Turn(sites, capacity, maxDistance);
    var s := sites[0];
    var w := Weight(s.resources);
    AllNonNegativeTail(sites);
    assert sites[m] == sites[1..][m - 1];
    if w <= 0.0 || s.distance > maxDistance {
      var t := Turn(sites[1..], capacity, maxDistance);
      assert r.sites == [s] + t.sites;
      assert k > 0 by {
        assert r.sites[0] == s;
      }
      assert r.sites[k] == t.sites[k - 1] && r.sites[m] == t.sites[m - 1];
      assert sites[k] == sites[1..][k - 1];
      TurnStopsAfterPartial(sites[1..], capacity, maxDistance, k - 1, m - 1);
    } else if w <= capacity {
      var f := Fulfil(s.resources, capacity);
      var t := Turn(sites[1..], f.capacity, maxDistance);
      assert r.sites == [s.(resources := f.resources)] + t.sites;
      FulfilWhenFits(s.resources, capacity);
      FulfilBounds(s.resources, capacity);
      assert k > 0 by {
        SatisfiedIffAllZero(f.resources);
        assert r.sites[0].resources == f.resources;
      }
      assert r.sites[k] == t.sites[k - 1] && r.sites[m] == t.sites[m - 1];
      assert sites[k] == sites[1..][k - 1];
      TurnStopsAfterPartial(sites[1..], f.capacity, maxDistance, k - 1, m - 1);
    } else {
      assert r.sites[1..] == sites[1..];
      assert r.sites[m] == r.sites[1..][m - 1];
    }
  }

  /** A pass visits some site exactly when some site is serviceable: the
      scan reaches every site unless it already visited one. */
  lemma {:induction false} TurnDelivered(sites: seq<Site>, capacity: real, maxDistance: real)
    ensures Turn(sites, capacity, maxDistance).delivered <==>
            exists k :: 0 <= k < |sites| && Serviceable(sites[k], maxDistance)
    decreases |sites|
  {
    if sites != [] {
      var s := sites[0];
      var w := Weight(s.resources);
      if w <= 0.0 || s.distance > maxDistance {
        TurnDelivered(sites[1..], capacity, maxDistance);
        if exists k :: 0 <= k < |sites| && Serviceable(sites[k], maxDistance) {
          var k :| 0 <= k < |sites| && Serviceable(sites[k], maxDistance);
          assert sites[1..][k - 1] == sites[k];
        }
        if exists k :: 0 <= k < |sites| - 1 && Serviceable(sites[1..][k], maxDistance) {
          var k :| 0 <= k < |sites| - 1 && Serviceable(sites[1..][k], maxDistance);
          assert sites[1..][k] == sites[k + 1];
        }
      } else {
        assert Serviceable(sites[0], maxDistance);
      }
    }
  }

  /** When no site is serviceable, a pass changes nothing, keeps the
      capacity and visits nothing. */
  lemma {:induction false} TurnIdle(sites: seq<Site>, capacity: real, maxDistance: real)
    requires forall k :: 0 <= k < |sites| ==> !Serviceable(sites[k], maxDistance)
    ensures Turn(sites, capacity, maxDistance) == TurnResult(sites, capacity, false)
    decreases |sites|
  {
    if sites != [] {
      assert !Serviceable(sites[0], maxDistance);
      forall k | 0 <= k < |sites| - 1 ensures !Serviceable(sites[1..][k], maxDistance) {
        assert sites[1..][k] == sites[k + 1];
      }
      TurnIdle(sites[1..], capacity, maxDistance);
      assert [sites[0]] + sites[1..] == sites;
    }
  }

  /** The state of a pass after its first j sites: `current` holds the
      first j sites as the pass leaves them and the rest untouched; the pass
      from `capacity` over the rest completes `goal`, and `delivered` says
      whether one of the first j sites was visited. */
  predicate PassedTo(original: seq<Site>, current: seq<Site>, j: nat, capacity: real, maxDistance: real,
                     delivered: bool, goal: TurnResult)
  {
    j <= |current| == |original| &&
    (forall k :: j <= k < |original| ==> current[k] == original[k]) &&
    goal.sites == current[..j] + Turn(original[j..], capacity, maxDistance).sites &&
    goal.capacity == Turn(original[j..], capacity, maxDistance).capacity &&
    goal.delivered == (delivered || Turn(original[j..], capacity, maxDistance).delivered)
  }

  lemma PassStart(original: seq<Site>, capacity: real, maxDistance: real)
    ensures PassedTo(original, original, 0, capacity, maxDistance, false, Turn(original, capacity, maxDistance))
  {
    assert original[0..] == original;
  }

  lemma PassSkip(original: seq<Site>, current: seq<Site>, j: nat, capacity: real, maxDistance: real,
                 delivered: bool, goal: TurnResult)
    requires PassedTo(original, current, j, capacity, maxDistance, delivered, goal) && j < |current|
    requires !Serviceable(current[j], maxDistance)
    ensures PassedTo(original, current, j + 1, capacity, maxDistance, delivered, goal)
  {
    assert original[j..][0] == original[j] && original[j..][1..] == original[j + 1..];
    var next := Turn(original[j + 1..], capacity, maxDistance);
    assert Turn(original[j..], capacity, maxDistance) == TurnResult([original[j]] + next.sites, next.capacity, next.delivered);
    assert goal.sites == current[..j] + ([original[j]] + next.sites);
    assert current[..j + 1] == current[..j] + [original[j]];
  }

  lemma PassFull(original: seq<Site>, current: seq<Site>, j: nat, capacity: real, maxDistance: real,
                 delivered: bool, goal: TurnResult)
    requires PassedTo(original, current, j, capacity, maxDistance, delivered, goal) && j < |current|
    requires Serviceable(current[j], maxDistance) && Weight(current[j].resources) <= capacity
    ensures var f := Fulfil(current[j].resources, capacity);
      PassedTo(original, current[j := current[j].(resources := f.resources)], j + 1, f.capacity, maxDistance, true, goal)
  {
    assert original[j..][0] == original[j] && original[j..][1..] == original[j + 1..];
    var f := Fulfil(current[j].resources, capacity);
    var next := Turn(original[j + 1..], f.capacity, maxDistance);
    var updated := current[j := current[j].(resources := f.resources)];
    assert goal.sites == current[..j] + ([updated[j]] + next.sites);
    assert updated[..j + 1] == current[..j] + [updated[j]];
  }

  lemma PassShort(original: seq<Site>, current: seq<Site>, j: nat, capacity: real, maxDistance: real,
                  delivered: bool, goal: TurnResult)
    requires PassedTo(original, current, j, capacity, maxDistance, delivered, goal) && j < |current|
    requires Serviceable(current[j], maxDistance) && capacity < Weight(current[j].resources)
    ensures var f := Fulfil(current[j].resources, capacity);
      goal == TurnResult(current[j := current[j].(resources := f.resources)], f.capacity, true)
  {
    assert original[j..][0] == original[j] && original[j..][1..] == original[j + 1..];
    var f := Fulfil(current[j].resources, capacity);
    var updated := current[j := current[j].(resources := f.resources)];
    assert original[j + 1..] == updated[j + 1..];
    assert updated == current[..j] + ([updated[j]] + original[j + 1..]);
  }

  lemma PassEnd(original: seq<Site>, current: seq<Site>, capacity: real, maxDistance: real,
                delivered: bool, goal: TurnResult)
    requires PassedTo(original, current, |current|, capacity, maxDistance, delivered, goal)
    ensures goal == TurnResult(current, capacity, delivered)
  {
    assert original[|current|..] == [] && current[..|current|] == current;
  }

  /** A whole run: the sites after every UAV has had its pass, and each UAV's
      capacity left and whether it visited a site, in fleet order. */
  datatype RunResult = RunResult(sites: seq<Site>, capacities: seq<real>, delivered: seq<bool>)

  /** Each UAV in fleet order starts from full capacity and the state the
      previous UAVs left behind; the site order is the same for every UAV. */
  function Run(sites: seq<Site>, fleet: seq<Vehicle>): (r: RunResult)
    ensures |r.sites| == |sites| && |r.capacities| == |fleet| && |r.delivered| == |fleet|
    decreases |fleet|
  {
    if fleet == [] then
      RunResult(sites, [], [])
    else
      var t := Turn(sites, fleet[0].loadCapacity, fleet[0].maxDistance);
      var rest := Run(t.sites, fleet[1..]);
      RunResult(rest.sites, [t.capacity] + rest.capacities, [t.delivered] + rest.delivered)
  }

  /** The state of a run after its first i UAVs: `current` holds the sites
      as they left them, `capacities` and `delivered` their results, and the
      run of the remaining UAVs from `current` completes `goal`. */
  predicate RanTo(fleet: seq<Vehicle>, i: nat, current: seq<Site>, capacities: seq<real>, delivered: seq<bool>,
                  goal: RunResult)
  {
    i <= |fleet| && |capacities| == i && |delivered| == i &&
    goal.sites == Run(current, fleet[i..]).sites &&
    goal.capacities == capacities + Run(current, fleet[i..]).capacities &&
    goal.delivered == delivered + Run(current, fleet[i..]).delivered
  }

  lemma RunStart(sites: seq<Site>, fleet: seq<Vehicle>)
    ensures RanTo(fleet, 0, sites, [], [], Run(sites, fleet))
  {
    assert fleet[0..] == fleet;
  }

  lemma RunStep(fleet: seq<Vehicle>, i: nat, current: seq<Site>, capacities: seq<real>, delivered: seq<bool>,
                goal: RunResult)
    requires RanTo(fleet, i, current, capacities, delivered, goal) && i < |fleet|
    ensures var t := Turn(current, fleet[i].loadCapacity, fleet[i].maxDistance);
      RanTo(fleet, i + 1, t.sites, capacities + [t.capacity], delivered + [t.delivered], goal)
  {
    assert fleet[i..][0] == fleet[i] && fleet[i..][1..] == fleet[i + 1..];
    var t := Turn(current, fleet[i].loadCapacity, fleet[i].maxDistance);
    var rest := Run(t.sites, fleet[i + 1..]);
    assert goal.capacities == capacities + ([t.capacity] + rest.capacities);
    assert goal.delivered == delivered + ([t.delivered] + rest.delivered);
  }

  lemma RunEnd(fleet: seq<Vehicle>, current: seq<Site>, capacities: seq<real>, delivered: seq<bool>,
               goal: RunResult)
    requires RanTo(fleet, |fleet|, current, capacities, delivered, goal)
    ensures goal == RunResult(current, capacities, delivered)
  {
    assert fleet[|fleet|..] == [];
  }

  /** A run changes only amounts: every site keeps its identity, distance,
      urgency and the number, order and kind of its resources. */
  lemma {:induction false} RunKeepsSites(sites: seq<Site>, fleet: seq<Vehicle>)
    ensures forall k :: 0 <= k < |sites| ==> SameSite(Run(sites, fleet).sites[k], sites[k])
    decreases |fleet|
  {
    if fleet != [] {
      var t := Turn(sites, fleet[0].loadCapacity, fleet[0].maxDistance);
      TurnKeepsSites(sites, fleet[0].loadCapacity, fleet[0].maxDistance);
      RunKeepsSites(t.sites, fleet[1..]);
    }
  }

  /** What the fleet loaded in all: each UAV's load capacity minus the
      capacity it had left. */
  function Loaded(fleet: seq<Vehicle>, capacities: seq<real>): real
    requires |capacities| == |fleet|
  {
    if fleet == [] then 0.0 else fleet[0].loadCapacity - capacities[0] + Loaded(fleet[1..], capacities[1..])
  }

  lemma SitesReducedTrans(a: seq<Site>, b: seq<Site>, c: seq<Site>)
    requires SitesReduced(a, b) && SitesReduced(b, c)
    ensures SitesReduced(a, c)
  {
  }

  /** Over a run, no UAV ever carries more than its load capacity on its
      turn, and every amount only goes down and stays non-negative. */
  lemma {:induction false} RunBounds(sites: seq<Site>, fleet: seq<Vehicle>)
    requires AllNonNegative(sites)
    requires forall k :: 0 <= k < |fleet| ==> fleet[k].loadCapacity >= 0.0
    ensures forall k :: 0 <= k < |fleet| ==> 0.0 <= Run(sites, fleet).capacities[k] <= fleet[k].loadCapacity
    ensures SitesReduced(Run(sites, fleet).sites, sites)
    ensures 0.0 <= TotalWeight(Run(sites, fleet).sites) <= TotalWeight(sites)
    decreases |fleet|
  {
    var r := Run(sites, fleet);
    if fleet == [] {
      forall k | 0 <= k < |sites| ensures Reduced(sites[k].resources, sites[k].resources) { }
    } else {
      var t := Turn(sites, fleet[0].loadCapacity, fleet[0].maxDistance);
      TurnBounds(sites, fleet[0].loadCapacity, fleet[0].maxDistance);
      assert AllNonNegative(t.sites) by {
        forall k | 0 <= k < |t.sites| ensures NonNegative(t.sites[k].resources) {
          assert Reduced(t.sites[k].resources, sites[k].resources);
        }
      }
      forall k | 0 <= k < |fleet| - 1 ensures fleet[1..][k].loadCapacity >= 0.0 {
        assert fleet[1..][k] == fleet[k + 1];
      }
      RunBounds(t.sites, fleet[1..]);
      SitesReducedTrans(r.sites, t.sites, sites);
      forall k | 1 <= k < |fleet| ensures 0.0 <= r.capacities[k] <= fleet[k].loadCapacity {
        assert fleet[k] == fleet[1..][k - 1];
        assert r.capacities[k] == Run(t.sites, fleet[1..]).capacities[k - 1];
      }
    }
    SitesReducedWeight(r.sites, sites);
  }

  /** Conservation of mass over a run: what the fleet loaded is what the
      sites' total outstanding weight went down by. */
  lemma {:induction false} RunConservesMass(sites: seq<Site>, fleet: seq<Vehicle>)
    ensures TotalWeight(sites) - TotalWeight(Run(sites, fleet).sites) == Loaded(fleet, Run(sites, fleet).capacities)
    decreases |fleet|
  {
    if fleet != [] {
      var r := Run(sites, fleet);
      var t := Turn(sites, fleet[0].loadCapacity, fleet[0].maxDistance);
      TurnConservesMass(sites, fleet[0].loadCapacity, fleet[0].maxDistance);
      RunConservesMass(t.sites, fleet[1..]);
      assert r.capacities[1..] == Run(t.sites, fleet[1..]).capacities;
    }
  }

  /** A run over sites that are all satisfied changes no site, leaves every
      UAV at full capacity and records no delivery for any of them. */
  lemma {:induction false} RunIdle(sites: seq<Site>, fleet: seq<Vehicle>)
    requires forall k :: 0 <= k < |sites| ==> Weight(sites[k].resources) <= 0.0
    ensures Run(sites, fleet).sites == sites
    ensures forall k :: 0 <= k < |fleet| ==>
      !Run(sites, fleet).delivered[k] && Run(sites, fleet).capacities[k] == fleet[k].loadCapacity
    decreases |fleet|
  {
    if fleet != [] {
      TurnIdle(sites, fleet[0].loadCapacity, fleet[0].maxDistance);
      RunIdle(sites, fleet[1..]);
      var r := Run(sites, fleet);
      forall k | 1 <= k < |fleet|
        ensures !r.delivered[k] && r.capacities[k] == fleet[k].loadCapacity
      {
        assert fleet[k] == fleet[1..][k - 1];
      }
    }
  }
}
