/** A demand site: fixed identity, distance from base and urgency, and a
    growable list of resource requests. */
module Outposts {
  import opened Resources

  /** An outpost's state as a value: what the allocation specification works on. */
  datatype Site = Site(id: int, distance: real, urgency: int, resources: seq<Resource>)

  /** The comparator the allocator hands to the sort: a site with the first
      key goes strictly before a site with the second when it is more urgent,
      or equally urgent and closer. */
  predicate Precedes(urgencyA: int, distanceA: real, urgencyB: int, distanceB: real)
  {
    if urgencyA == urgencyB then distanceA < distanceB else urgencyA > urgencyB
  }

  /** The comparator is a strict weak ordering, as the sort requires of it:
      irreflexive, transitive, and with "neither goes first" (same urgency and
      same distance) transitive as well. */
  lemma PrecedesIsStrictWeakOrder(uA: int, dA: real, uB: int, dB: real, uC: int, dC: real)
    ensures !Precedes(uA, dA, uA, dA)
    ensures Precedes(uA, dA, uB, dB) && Precedes(uB, dB, uC, dC) ==> Precedes(uA, dA, uC, dC)
    ensures !Precedes(uA, dA, uB, dB) && !Precedes(uB, dB, uA, dA) &&
            !Precedes(uB, dB, uC, dC) && !Precedes(uC, dC, uB, dB) ==>
            !Precedes(uA, dA, uC, dC) && !Precedes(uC, dC, uA, dA)
  {
  }

  /** The order a sorted sequence is in: higher urgency first, and among
      equal urgencies the closer site first. `Ranked(a, b)` holds when a site
      with the first key may stand before a site with the second, that is,
      when the comparator does not put the second strictly first; any two
      keys are ranked one way or the other. */
  predicate Ranked(urgencyA: int, distanceA: real, urgencyB: int, distanceB: real): (r: bool)
    ensures r <==> !Precedes(urgencyB, distanceB, urgencyA, distanceA)
    ensures !r ==> Precedes(urgencyB, distanceB, urgencyA, distanceA) && !Precedes(urgencyA, distanceA, urgencyB, distanceB)
  {
    if urgencyA == urgencyB then distanceA <= distanceB else urgencyA > urgencyB
  }

  /** Site values in allocation order. The allocation specification works on
      values, so the order is stated here on `Site`s; the sort works on
      outpost objects and states it with `Ordered` below, and `OrderedSitesOf`
      carries one to the other. */
  predicate OrderedSites(s: seq<Site>)
  {
    forall i, j :: 0 <= i < j < |s| ==> Ranked(s[i].urgency, s[i].distance, s[j].urgency, s[j].distance)
  }

  /** The impact of one allocation pass on a site: the identity, distance,
      urgency, number, order and kind of its resources are kept. */
  predicate SameSite(after: Site, before: Site)
  {
    after.id == before.id && after.distance == before.distance && after.urgency == before.urgency &&
    |after.resources| == |before.resources| &&
    forall k :: 0 <= k < |after.resources| ==> after.resources[k].kind == before.resources[k].kind
  }

  class Outpost {
    const id: int
    const distance: real
    const urgency: int
    var resources: seq<Resource>

    /** The current state, as a value. */
    function Snapshot(): Site
      reads this
    {
      Site(id, distance, urgency, resources)
    }

    /** A new outpost has the given identity and no resource requests yet. */
    constructor (id: int, distance: real, urgency: int)
      ensures this.id == id && this.distance == distance && this.urgency == urgency
      ensures resources == []
    {
      this.id := id;
      this.distance := distance;
      this.urgency := urgency;
      resources := [];
    }

    /** The implicit member-wise copy made when an outpost is passed by value. */
    constructor Copy(other: Outpost)
      ensures Snapshot() == other.Snapshot()
    {
      id := other.id;
      distance := other.distance;
      urgency := other.urgency;
      resources := other.resources;
    }

    function GetId(): (r: int)
      ensures r == id
    {
      id
    }

    function GetDistance(): (r: real)
      ensures r == distance
    {
      distance
    }

    function GetUrgency(): (r: int)
      ensures r == urgency
    {
      urgency
    }

    /** Appends one request at the end (`push_back`). */
    method AddResource(res: Resource)
      modifies this
      ensures resources == old(resources) + [res]
      ensures |resources| == |old(resources)| + 1 && resources[..|old(resources)|] == old(resources)
    {
      resources := resources + [res];
    }

    /** Reading the live resource list. */
    function GetRequirements(): (r: seq<Resource>)
      reads this
      ensures r == resources
    {
      resources
    }

    /** Writing one amount through the live resource list
        (`getRequirements()[i].unfulfilledAmount = amount`); only that amount changes. */
    method SetUnfulfilledAmount(i: nat, amount: real)
      requires i < |resources|
      modifies this
      ensures resources == old(resources)[i := old(resources)[i].(unfulfilledAmount := amount)]
    {
      resources := resources[i := resources[i].(unfulfilledAmount := amount)];
    }
  }

  /** Two outposts in the order the allocator sorts them: `Ranked` on their
      keys. The sort swaps object references, so its invariants are stated on
      objects, with `Ordered`, rather than on their `Snapshot`s. */
  predicate InOrder(a: Outpost, b: Outpost)
  {
    Ranked(a.GetUrgency(), a.GetDistance(), b.GetUrgency(), b.GetDistance())
  }

  /** A sequence of outposts in allocation order. */
  predicate Ordered(os: seq<Outpost>)
  {
    forall i, j :: 0 <= i < j < |os| ==> InOrder(os[i], os[j])
  }

  /** No outpost object occurs twice. */
  predicate Distinct(os: seq<Outpost>)
  {
    forall i, j :: 0 <= i < j < |os| ==> os[i] != os[j]
  }

  /** The states of a sequence of outposts, in the same order. */
  function SitesOf(os: seq<Outpost>): (r: seq<Site>)
    reads os
    ensures |r| == |os|
    ensures forall k :: 0 <= k < |os| ==> r[k] == os[k].Snapshot()
  {
    if os == [] then [] else [os[0].Snapshot()] + SitesOf(os[1..])
  }

  /** Exchanging two elements keeps the multiset of a sequence. */
  lemma SwapMultiset<T>(s: seq<T>, i: nat, m: nat)
    requires i < |s| && m < |s|
    ensures multiset(s[i := s[m]][m := s[i]]) == multiset(s)
  {
    if i != m {
      var t := s[i := s[m]];
      assert multiset(t) == multiset(s) - multiset{s[i]} + multiset{s[m]};
      assert t[m] == s[m];
      assert multiset(t[m := s[i]]) == multiset(t) - multiset{s[m]} + multiset{s[i]};
    }
  }

  /** Exchanging two outposts keeps them distinct. */
  lemma SwapDistinct(a: seq<Outpost>, i: nat, m: nat)
    requires i < |a| && m < |a| && Distinct(a)
    ensures Distinct(a[i := a[m]][m := a[i]])
  {
    var b := a[i := a[m]][m := a[i]];
    forall p, q | 0 <= p < q < |b| ensures b[p] != b[q] {
      var p' := if p == m then i else if p == i then m else p;
      var q' := if q == m then i else if q == i then m else q;
      assert b[p] == a[p'] && b[q] == a[q'] && p' != q';
      if p' < q' {
        assert a[p'] != a[q'];
      } else {
        assert a[q'] != a[p'];
      }
    }
  }

  /** One step of selection sort: with the first i outposts in place and
      the one at m ranked before every later one, exchanging it into place
      puts the first i + 1 in place. */
  lemma SelectStep(a: seq<Outpost>, i: nat, m: nat)
    requires i <= m < |a|
    requires forall p, q :: 0 <= p < i && p < q < |a| ==> InOrder(a[p], a[q])
    requires forall q :: i <= q < |a| ==> InOrder(a[m], a[q])
    ensures var b := a[i := a[m]][m := a[i]];
      forall p, q :: 0 <= p < i + 1 && p < q < |b| ==> InOrder(b[p], b[q])
  {
    var b := a[i := a[m]][m := a[i]];
    forall p, q | 0 <= p < i + 1 && p < q < |b| ensures InOrder(b[p], b[q]) {
      var q' := if q == m then i else if q == i then m else q;
      assert b[q] == a[q'];
      if p < i {
        assert b[p] == a[p] && p < q';
      } else {
        assert b[p] == a[m] && i <= q';
      }
    }
  }

  /** The minimum search of selection sort: an outpost among a[i..] that
      may stand before all the others there. */
  method FirstInOrder(a: seq<Outpost>, i: nat) returns (m: nat)
    requires i < |a|
    ensures i <= m < |a| && forall q :: i <= q < |a| ==> InOrder(a[m], a[q])
  {
    m := i;
    for k := i + 1 to |a|
      invariant i <= m < k
      invariant forall q :: i <= q < k ==> InOrder(a[m], a[q])
    {
      if !InOrder(a[m], a[k]) {
        NewCandidate(a, i, k, m);
        m := k;
      }
    }
  }

  /** The minimum search of selection sort: an outpost the current
      candidate does not precede precedes everything the candidate did. */
  lemma NewCandidate(a: seq<Outpost>, i: nat, k: nat, m: nat)
    requires i <= m < k < |a|
    requires forall q :: i <= q < k ==> InOrder(a[m], a[q])
    requires !InOrder(a[m], a[k])
    ensures forall q :: i <= q < k + 1 ==> InOrder(a[k], a[q])
  {
  }

  /** Sorting outposts sorts their states. */
  lemma OrderedSitesOf(os: seq<Outpost>)
    requires Ordered(os)
    ensures OrderedSites(SitesOf(os))
  {
  }
}
