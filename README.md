# Greedy UAV-to-outpost resource allocator, modelled in Dafny

The system plans deliveries from a base station to outposts by a fleet of
UAVs. Each outpost has an identity, a distance from the base, an urgency
level and a list of typed resource requests. Each request carries the
amount still owed. Each UAV has an identity, a load capacity, a maximum
range and the capacity still free on its current trip.

`ResourceAllocator::allocateResources` first sorts the outposts: higher
urgency first, and among equal urgencies the closer outpost first. Then each
UAV, in fleet order, takes one greedy pass:

- its capacity is reset to its load capacity;
- the outposts are scanned from the start in sorted order;
- an outpost with nothing owed, or beyond the UAV's range, is skipped;
- an outpost whose total outstanding weight fits in the free capacity is
  fully served, and the scan goes on;
- the first outpost that does not fit is served in part, and the UAV's turn ends.

Serving an outpost (`fulfillResourcesPartially`) walks its resources in
stored order. It zeroes every request that fits in the capacity left. At the
first request that does not fit, it takes off all the capacity left and stops.

The model has five modules.

- `Resources`: the resource request value and the outstanding weight of a list.
- `Uavs`: the `UAV` class (fixed identity, load capacity and range; mutable
  free capacity) and its fixed part as a `Vehicle` value.
- `Outposts`: the `Outpost` class (fixed identity, distance and urgency;
  a mutable resource list), its state as a `Site` value, the priority order,
  and the minimum search and exchange step of the sort.
- `Greedy`: the algorithm as functions on values, with its properties proved
  as lemmas:
  - `Fulfil` serves one site;
  - `Turn` is one UAV's pass;
  - `Run` is the whole fleet loop.
- `Allocator`: the `ResourceAllocator` class. It holds `uavs` and `outposts`
  as sequences of objects and updates them in place with loops that
  follow the C++ loops. The allocation methods are proved to compute the
  `Greedy` function for their part, so every lemma of `Greedy` applies to
  the state the imperative code leaves behind.

Amounts, distances and capacities are `real`.

## Model

| member | source | states |
|---|---|---|
| Uavs.UAV.constructor | UAV.cpp:5-6 | stores identity, load capacity and range; the free capacity starts at the load capacity |
| Uavs.UAV.Copy | ResourceAllocator.cpp:7-8 | the member-wise copy made when the fleet vector is passed by value: every field equal to the original's |
| Uavs.UAV.GetId | UAV.cpp:8-11 | returns the stored identity; a function, so it has no side effect |
| Uavs.UAV.GetAvailableCapacity | UAV.cpp:13-16 | returns the current free capacity, without side effect |
| Uavs.UAV.GetMaxDistance | UAV.cpp:18-21 | returns the stored range, without side effect |
| Uavs.UAV.ReduceCapacity | UAV.cpp:23-26 | the free capacity drops by exactly the amount, with no check and no clamping; an amount between zero and the free capacity keeps it between zero and its old value and keeps the capacity invariant |
| Uavs.UAV.ResetCapacity | UAV.cpp:28-31 | the free capacity becomes the load capacity whatever it was before, so a second reset changes nothing |
| Uavs.FleetOf | ResourceAllocator.hpp:13 | the fixed parts of a UAV vector, position by position |
| Uavs.CapacitiesOf | ResourceAllocator.hpp:13 | the free capacities of a UAV vector, position by position |
| Outposts.Outpost.constructor | Outpost.cpp:4-5 | stores identity, distance and urgency; the resource list starts empty |
| Outposts.Outpost.Copy | ResourceAllocator.cpp:7-8 | the member-wise copy made when the outpost vector is passed by value: the same state as the original |
| Outposts.Outpost.GetId | Outpost.cpp:7-10 | returns the stored identity, without side effect |
| Outposts.Outpost.GetDistance | Outpost.cpp:12-15 | returns the stored distance, without side effect |
| Outposts.Outpost.GetUrgency | Outpost.cpp:17-20 | returns the stored urgency, without side effect |
| Outposts.Outpost.AddResource | Outpost.cpp:22-25 | appends exactly one request at the end: the length grows by one, earlier requests are unchanged, and identity, distance and urgency are constants |
| Outposts.Outpost.GetRequirements | Outpost.cpp:27-35 | reading through either overload yields the live resource list itself, so earlier writes through it are seen |
| Outposts.Outpost.SetUnfulfilledAmount | ResourceAllocator.cpp:93 | a write through the live list: only the amount of request i changes, and it changes to the new value |
| Outposts.Precedes | ResourceAllocator.cpp:100-103 | the sort's comparator as written: strictly more urgent, or equally urgent and strictly closer |
| Outposts.PrecedesIsStrictWeakOrder | ResourceAllocator.cpp:99-104 | the comparator is irreflexive and transitive, and "neither goes first" is transitive too: the strict weak ordering the sort requires |
| Outposts.Ranked | ResourceAllocator.cpp:99-104 | a site may stand before another exactly when the comparator does not put the other strictly first; when it may not, the other goes strictly first and not the reverse, so any two sites are ranked one way or the other |
| Outposts.SitesOf | ResourceAllocator.hpp:14 | the states of an outpost vector, position by position |
| Outposts.FirstInOrder | ResourceAllocator.cpp:99-104 | finds, among the outposts from index i on, one that the comparator allows before every other one there |
| Outposts.SelectStep | ResourceAllocator.cpp:99-104 | with the first i outposts in place, exchanging such an outpost into position i puts the first i + 1 in place |
| Outposts.SwapMultiset | ResourceAllocator.cpp:99 | exchanging two elements keeps the multiset of the sequence |
| Outposts.SwapDistinct | ResourceAllocator.cpp:99 | exchanging two outposts keeps them pairwise distinct |
| Allocator.SelectionSort | ResourceAllocator.cpp:97-105 | the result is a permutation of the input, in an order the comparator allows for every pair i < j (higher urgency first, then distance ascending), and still distinct |
| Allocator.CopyFleet | ResourceAllocator.cpp:7-8 | a new, distinct UAV for each element, in order, each an equal copy |
| Allocator.CopySites | ResourceAllocator.cpp:7-8 | a new, distinct outpost for each element, in order, each with an equal state |
| Allocator.ResourceAllocator.constructor | ResourceAllocator.cpp:7-8 | the allocator holds fresh, pairwise distinct copies of the given UAVs and outposts, position by position |
| Allocator.ResourceAllocator.SortOutposts | ResourceAllocator.cpp:97-105 | the outpost sequence becomes a permutation of the old one in comparator order; no outpost's state changes, and the UAVs are untouched |
| Allocator.ResourceAllocator.CalculateUnfulfilledWeight | ResourceAllocator.cpp:55-63 | the accumulation loop returns the sum of the outstanding amounts (Weight) and modifies nothing |
| Allocator.ResourceAllocator.FulfillResourcesPartially | ResourceAllocator.cpp:65-95 | the outpost's resources and the UAV's free capacity end as Fulfil computes from their old values |
| Allocator.ResourceAllocator.ServeInOrder | ResourceAllocator.cpp:68-88 | the walk over the copied list (skip what is settled; zero what fits; on the first request that does not fit, take off all capacity and break) computes Fulfil |
| Allocator.ResourceAllocator.WriteBack | ResourceAllocator.cpp:90-94 | copying the amounts back index by index makes the outpost's list equal to the worked-on copy |
| Allocator.ResourceAllocator.Visit | ResourceAllocator.cpp:36 | serving the j-th outpost changes that site as Fulfil says and leaves every other site as it was |
| Allocator.ResourceAllocator.ScanStep | ResourceAllocator.cpp:26-45 | one round of the scan: skip on no weight or out of range (continue), full service when the weight fits, partial service that ends the scan (break) |
| Allocator.ResourceAllocator.AllocateFor | ResourceAllocator.cpp:18-51 | a UAV's turn (reset, scan with continue/break, the hasDelivered flag) leaves the sites, the UAV's capacity and the flag exactly as Turn computes |
| Allocator.ResourceAllocator.TakeTurn | ResourceAllocator.cpp:16-18 | the i-th UAV's turn as Turn computes it, with every other UAV's capacity unchanged |
| Allocator.ResourceAllocator.AllocateInOrder | ResourceAllocator.cpp:16-52 | the fleet loop leaves the sites, every UAV's capacity and every hasDelivered flag exactly as Run computes, in fleet order |
| Allocator.ResourceAllocator.AllocateResources | ResourceAllocator.cpp:10-53 | after sorting, the outposts are a permutation of the old ones in comparator order; the states right after sorting are the old states in the new order; the final state is Run of those states over the fleet; with non-negative amounts and load capacities, every UAV ends within the capacity invariant and every site keeps its identity and requests with amounts only lowered |
| Resources.WeightAppend | ResourceAllocator.cpp:58-61 | the weight of a concatenation is the sum of the weights, so the running total is the weight of the prefix |
| Resources.Weight | ResourceAllocator.cpp:55-63 | the outstanding weight of a list of requests, summed in stored order; non-negative amounts give a non-negative weight |
| Resources.SatisfiedIffAllZero | ResourceAllocator.cpp:28 | with non-negative amounts, the "satisfied" test (weight at most zero) holds exactly when every request is at zero, in both directions |
| Resources.ReducedWeight | ResourceAllocator.cpp:72-86 | lowering amounts, keeping them non-negative, never raises the weight nor makes it negative |
| Greedy.Fulfil | ResourceAllocator.cpp:65-95 | one site's service by a UAV, as a value: the requests in order, those with nothing owed passed over, each owed one fully served while it fits, the first that does not fit partly served and the rest untouched; keeps the number of requests (its other properties are the Fulfil lemmas below) |
| Greedy.Turn | ResourceAllocator.cpp:18-51 | one UAV's pass over the sites in order from a given capacity, as a value: skip satisfied or out-of-range sites, serve the others, stop after the first partial service; keeps the number of sites |
| Greedy.Run | ResourceAllocator.cpp:16-52 | the fleet loop as a value: each UAV's Turn, from its full load capacity, on the sites the previous ones left; keeps the number of sites and yields one capacity and one hasDelivered flag per UAV |
| Greedy.FulfilKeepsKinds | ResourceAllocator.cpp:91-94 | serving changes only amounts: the number, order and kind of the requests are kept |
| Greedy.FulfilConservesMass | ResourceAllocator.cpp:70-88 | what leaves the UAV's capacity is exactly what leaves the site's outstanding weight |
| Greedy.FulfilBounds | ResourceAllocator.cpp:72-86 | from a non-negative capacity, the capacity left is between zero and the capacity on arrival; on non-negative amounts, each amount only goes down and stays non-negative |
| Greedy.FulfilWhenFits | ResourceAllocator.cpp:75-80 | when the total weight fits, every request ends at zero and the UAV keeps its capacity minus the weight |
| Greedy.FulfilWhenShort | ResourceAllocator.cpp:81-87 | when the total weight does not fit, the UAV ends empty, every request before some index k is at zero, the one at k keeps a positive remainder no larger than before, and every later one is unchanged |
| Greedy.TurnKeepsSites | ResourceAllocator.cpp:24-46 | a pass keeps every site's identity, distance, urgency and the number, order and kind of its requests |
| Greedy.TurnConservesMass | ResourceAllocator.cpp:24-46 | over a pass, what the UAV loaded is exactly what the sites' total outstanding weight went down by |
| Greedy.TurnBounds | ResourceAllocator.cpp:18-46 | from a non-negative capacity, the capacity left stays between zero and the start capacity; every amount only goes down and stays non-negative |
| Greedy.TurnSkips | ResourceAllocator.cpp:28-31 | a site with no outstanding weight, or beyond the range, is left untouched by the pass |
| Greedy.TurnStopsAfterPartial | ResourceAllocator.cpp:39-45 | once an in-range site is left with weight still owed, every later site is untouched by the pass |
| Greedy.TurnDelivered | ResourceAllocator.cpp:21-51 | the hasDelivered flag is true exactly when some site is serviceable (weight owed and within range), in both directions |
| Greedy.TurnIdle | ResourceAllocator.cpp:28-31 | with no serviceable site, a pass changes nothing, keeps the capacity and delivers nothing |
| Greedy.RunKeepsSites | ResourceAllocator.cpp:16-52 | a whole run keeps every site's identity, distance, urgency and the number, order and kind of its requests |
| Greedy.RunBounds | ResourceAllocator.cpp:16-18 | with non-negative load capacities, each UAV's capacity left is between zero and its load capacity, so no UAV loads more than its capacity on its turn; amounts only go down and stay non-negative, so the sites' total outstanding weight never rises nor goes negative |
| Greedy.SitesReducedWeight | ResourceAllocator.cpp:55-63 | when every site's amounts are only lowered, no site's weight and not the total weight rises or goes negative |
| Greedy.RunConservesMass | ResourceAllocator.cpp:16-52 | over a run, the fleet's total load (load capacity minus capacity left, summed) equals the drop in the sites' total outstanding weight |
| Greedy.RunIdle | ResourceAllocator.cpp:48-51 | when every site is already satisfied, a run changes no site, leaves every UAV at full capacity and every hasDelivered flag false |

## Left out

- Console output is not modelled (ResourceAllocator.cpp:19, 35, 41, 50, 77, 83). The hasDelivered decision of each UAV is returned as a sequence of booleans instead of printed.
- `double` arithmetic is modelled as exact `real` arithmetic: there is no rounding, infinity or NaN.
- The `std::sort` algorithm itself is not modelled. The model sorts by selection sort and states only what `std::sort` guarantees: after sorting, the sequence is a permutation of the input and follows the comparator's order. The order among outposts with equal urgency and equal distance is not fixed, just as `std::sort`, which is not stable, does not fix it.
- Sorting moves `Outpost` values inside the vector. The model reorders references to distinct outpost objects, which carry their state with them, and states that no outpost's state changes.
- The C++ loops are split across several `Allocator` methods; each method holds one loop or one loop body, and the order of operations is the source's:
  - AllocateInOrder and TakeTurn hold the fleet loop;
  - AllocateFor and ScanStep hold the scan;
  - Visit is the call `fulfillResourcesPartially(uav, outpost)`;
  - ServeInOrder and WriteBack hold the two loops of `fulfillResourcesPartially`;
  - CopyFleet and CopySites hold the copies made by the constructor.
- ResourceAllocator.cpp:26 calls `outpost.getResources()`, which Outpost.hpp does not declare. The model reads the live resource list there, as `getRequirements()` returns it.
- The const and non-const overloads of `getRequirements` are one read function (GetRequirements) plus the one kind of write the core does through the reference (SetUnfulfilledAmount).
- main.cpp is not part of this model: it only builds sample data and calls the allocator.
- The `Resource` record of Resource.hpp is a datatype. Its field `type` is named `kind`, because `type` is a Dafny keyword.
