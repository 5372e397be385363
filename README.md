# Capacitated vehicle routing by simulated annealing: the optimisation engine

This project models the optimisation engine of `m.py`. The engine is a
heuristic for the capacitated vehicle routing problem: delivery points with a
demand are assigned to a fleet of trucks of limited capacity, and each truck's
stops are ordered so that the total depot-to-depot travel distance is short.
The model covers four parts of the engine:

- **Construction** (`initial_solution`): a greedy single pass. It empties every
  route, then walks the points with one forward-only "current truck" index.
  A point that fits goes into the current truck. Otherwise the index moves on
  and the point goes into the next truck without a capacity check. Running
  past the last truck returns `False`.
- **Cost** (`total_distance`): for every truck with stops, the leg from the
  depot to the first stop, the legs between consecutive stops, and the leg
  back to the depot.
- **Neighbour move** (`neighbor_solution`): copies the fleet into new `Truck`
  objects. It then picks two distinct trucks and, if both have stops, one
  stop in each, and exchanges those two stops.
- **Search loop** (`simulated_annealing`): the Metropolis acceptance rule,
  tracking of the best solution, and geometric cooling.

Trucks are objects whose `capacity` and `route` fields the engine updates in
place. They are modelled as the class `Fleet.Truck`, and a fleet is a
sequence of references to them. The methods that change or read trucks are:

- `InitialSolution`, proved against the value-level walk `Construct`.
- `TotalDistance`, proved against `SolutionCost`.
- `NeighborSolution`, proved against `SwapStops`.
- `SimulatedAnnealing`, proved against `Run`.

The properties are lemmas about those value-level functions. The random
choices, the square root and the exponential are inputs (see "Left out").

The model follows the code in three places where the behaviour differs from
what the engine's documentation describes:

- **Each search call starts over.** The documentation describes batches that
  resume the previous temperature and current solution. The code sets the
  temperature to 1.0 on every call (m.py:69) and starts again from the
  constructed fleet it is given (m.py:66). Only the best solution and its
  distance carry over between calls. The temperature entered in the
  application is stored but never passed to the engine.
- **An oversized point does not by itself fail construction.** The
  documentation expects a single point heavier than every truck to make
  construction fail. In the code, such a point fails the walk only when it
  reaches the last truck. While a next truck exists, the code moves to it and
  places the point there without a check, leaving a negative capacity field.
  `Construction.OversizedPointIsPlacedUnchecked` states this for concrete
  values. The documented limitation that the walk can fail even though the
  total capacity suffices does hold:
  `Construction.EnoughTotalCapacityCanFail` exhibits such an input.
- **Capacity fields can go negative.** The documentation says a route's
  demand never exceeds its truck's capacity. The unchecked fallback above
  breaks this, and the neighbour move also ignores capacity: its copies keep
  the old capacity fields whatever stops they receive.

## Model

| member | source | states |
|---|---|---|
| Fleet.Truck.constructor | m.py:13-16 | A new truck has the given capacity and an empty route. |
| Geometry.EuclideanDistance | m.py:18-19 | A distance that is the non-negative square root of the squared coordinate difference is non-negative and symmetric, and zero exactly between points with the same coordinates. |
| Geometry.EuclideanIsUnique | m.py:18-19 | Any two distances that are both Euclidean agree on every pair of points, so the distance parameter can only be the one `distance` computes. |
| Construction.Start | m.py:23-25 | The state before the first point: every route empty, every capacity field as given, truck 0 current, and each capacity field equal to its start value minus its route's (zero) demand. |
| Construction.Load | m.py:29-39 | The append-and-deduct that ends both branches (m.py:29-30 and m.py:38-39). Appending a point to one truck's route and deducting its demand from that truck's capacity field keeps that field plus the route's demand unchanged. No other route or capacity field changes. |
| Construction.Place | m.py:27-39 | One point of the walk. Every truck keeps its route and capacity slot, and a walk that has already failed takes no more points. |
| Construction.PlaceStep | m.py:27-39 | On a walk still going, the step fails exactly when the point does not fit the current truck and that truck is the last; the index then moves one past the last truck and nothing else changes. Otherwise the point is appended to the current truck if it fits there and to the next truck if not, and no other route or capacity field changes. |
| Construction.Construct | m.py:21-40 | The walk over the points keeps one route and one capacity field per truck. While the walk goes on, the current index names a truck. A failed walk has moved the index one past the last truck. |
| Construction.FailureIsFinal | m.py:33-36 | Once the walk has failed, the remaining points change nothing (the early `return False`). |
| Construction.ConstructTracksCapacity | m.py:26-39 | On both branches, every truck's capacity field equals its starting capacity minus the total demand of its route. |
| Construction.ConstructPartitions | m.py:26-39 | A successful walk lays out, in truck order, exactly the input sequence: every point is placed once, in order, and each truck holds a contiguous segment. A failed walk has placed a proper prefix. No truck after the current one is used. |
| Construction.CulpritFailsWalk | m.py:31-36 | A point that does not fit the last truck makes the walk fail. |
| Construction.FailedWalkHasCulprit | m.py:31-36 | A failed walk has a point that did not fit the then-current truck, and that truck was the last one. |
| Construction.ConstructFailsIffOutOfTrucks | m.py:26-40 | The walk fails if and only if some point does not fit the current truck and the current truck is the last. |
| Construction.AbandonedTruckWasFull | m.py:27-39 | Every truck the index has moved past left too little capacity for the first point of the next truck, and every truck reached after the first has at least one stop. |
| Construction.OversizedPointIsPlacedUnchecked | m.py:31-39 | A point of demand 60 and three trucks of capacity 50: the point goes to the second truck, construction reports success, and that truck's capacity field becomes -10. |
| Construction.EnoughTotalCapacityCanFail | m.py:26-39 | Three points of demand 6 and two trucks of capacity 10: the total demand 18 is at most the total capacity 20, yet the walk fails. |
| Construction.LoadTruck | m.py:29-39 | The append-and-deduct that ends both branches (m.py:29-30 and m.py:38-39), in place. Appends the point to one truck's route and deducts its demand from that truck's capacity field. No other truck changes. |
| Construction.ResetRoutes | m.py:23-24 | Every route is emptied and every capacity field is kept. |
| Construction.PlaceNext | m.py:27-39 | One iteration of the walk, in place: the new current index, whether the point was placed, and the routes and capacity fields are those `Place` gives. |
| Construction.InitialSolution | m.py:21-40 | After the call, the returned flag, the trucks' routes and their capacity fields are those of `Construct` on the points and the original capacity fields, whether the walk succeeds or fails. |
| Cost.Legs | m.py:48-49 | The legs between consecutive stops, summed in order. The sum is at least 0 when every one of those legs is. |
| Cost.RouteCost | m.py:46-50 | One truck's contribution: 0 for a truck without stops, and at least 0 when no distance is negative. |
| Cost.SolutionCost | m.py:43-51 | The sum of the trucks' contributions in truck order. With a non-negative distance, every solution costs at least 0. |
| Cost.TotalDistance | m.py:43-51 | The accumulated total equals `SolutionCost` of the trucks' routes. |
| Cost.EmptyRoutesCostNothing | m.py:46 | A fleet whose routes are all empty costs 0. |
| Cost.RouteCostIsClosedTour | m.py:46-50 | A truck's contribution is the length of the closed tour depot, stops in order, depot. |
| Cost.SolutionCostAppend | m.py:45-50 | The cost of a fleet split in two is the sum of the costs of the parts. |
| Cost.SolutionCostUpdate | m.py:45-50 | Replacing one truck's route changes the total by exactly the difference between the two routes' costs. |
| Neighbor.SwapStops | m.py:58-62 | The routes after a move. Every truck keeps its number of stops. |
| Neighbor.CopyTrucks | m.py:55-57 | Fresh, pairwise distinct trucks with the old capacity fields and copies of the old routes. No existing object is modified. |
| Neighbor.ExchangeStops | m.py:59-62 | In place, the routes become `SwapStops` of the old routes, and the capacity fields are unchanged. |
| Neighbor.NeighborSolution | m.py:54-63 | Returns fresh, distinct trucks. Their capacity fields are the input's, and their routes are `SwapStops` of the input routes. The input trucks are not modified. |
| Neighbor.SwapExchangesTwoStops | m.py:59-62 | If either chosen route is empty, nothing changes. Otherwise the two chosen stops trade places and every other position of every truck keeps its stop. |
| Neighbor.SwapKeepsStops | m.py:62 | The multiset of all assigned points is the same before and after the move. |
| Neighbor.SwapIsInvolution | m.py:62 | Making the same move twice restores the routes. |
| Neighbor.SwapCostChange | m.py:54-63 | The move changes the total cost only through the two chosen trucks. |
| Neighbor.SingleStopSwapTradesOwners | m.py:59-62 | When every truck has one stop, the two chosen trucks exchange their stops and no other truck changes. |
| Annealing.Accepts | m.py:79 | A strictly shorter neighbour is always accepted. A neighbour that is not shorter is accepted exactly when the draw is below exp((current - new) / temperature). |
| Annealing.Cool | m.py:87 | With a positive cooling rate, the temperature stays positive. |
| Annealing.Begin | m.py:66-72 | The search starts from the given fleet at temperature 1.0. Without a best solution, the current one becomes the best, at the current distance. |
| Annealing.Outcome | m.py:79-87 | The temperature after a decision is positive, and the current solution is either the old one or the neighbour. |
| Annealing.Step | m.py:76-87 | One iteration keeps every truck's number of stops and a positive temperature. |
| Annealing.StepOutcome | m.py:79-87 | The temperature is multiplied by the cooling rate. A rejected neighbour leaves the current solution and distance unchanged. An accepted one becomes current. The best changes exactly when the neighbour is accepted and strictly shorter than the best so far; otherwise the best is kept. The best distance never grows. |
| Annealing.Run | m.py:75-87 | Any number of iterations keeps every truck's number of stops and a positive temperature. |
| Annealing.Power | m.py:87 | The cooling rate to the power k, positive for a positive rate. |
| Annealing.Cooled | m.py:87 | The temperature after k coolings, which stays positive. |
| Annealing.RunTemperature | m.py:87 | The temperature after a run depends only on the number of iterations, whatever was accepted. |
| Annealing.CooledIsGeometric | m.py:87 | After k coolings, the temperature is the starting temperature times the cooling rate to the power k. |
| Annealing.CoolingFactorShrinks | m.py:87 | For a rate strictly between 0 and 1, the cooling factor stays in (0, 1] and strictly shrinks with every iteration. |
| Annealing.BestNeverWorsens | m.py:83-85 | The best distance after more iterations is at most the best distance after fewer. |
| Annealing.BeginTracks | m.py:70-72 | Starting without a best solution, both distances are the costs of their solutions, the best is no longer than the current, and both deliver the starting fleet's points. |
| Annealing.StepKeepsTracks | m.py:76-85 | One iteration preserves that invariant: the distances are costs, the best is no longer than the current, the assigned points are unchanged, and the shapes agree. |
| Annealing.RunKeepsTracks | m.py:75-87 | Any number of iterations preserves that invariant. |
| Annealing.BestBoundsEveryVisited | m.py:75-87 | The final best distance is at most every current distance the search passed through. |
| Annealing.FreshSearchResult | m.py:65-91 | Without a best solution handed in, the result delivers exactly the starting fleet's points and gives every truck as many stops as before. Its distance is its cost and is at most the starting fleet's cost. |
| Annealing.SidewaysMoveAccepted | m.py:79 | When exp(0) is 1 and the draw is in [0, 1), a neighbour exactly as long as the current solution is always accepted. |
| Annealing.SnapshotOutcome | m.py:79-85 | Deciding over truck objects and then reading their routes gives the same result as deciding over the routes. |
| Annealing.Propose | m.py:76-77 | The neighbour's routes are `SwapStops` of the current routes, and its distance is its cost. |
| Annealing.Iterate | m.py:76-87 | One pass of the loop body leaves the state whose routes are `Step` of the state before it. |
| Annealing.Anneal | m.py:75-87 | The loop, one iteration per move: the routes of the state it ends in are those `Run` gives from the state it starts in. |
| Annealing.Setup | m.py:66-72 | The state before the first iteration is `Begin` of the given fleet's routes, its cost, and the best solution handed in. |
| Annealing.SimulatedAnnealing | m.py:65-91 | The returned best solution's routes and best distance are those of `Run` from `Begin` over the given moves and draws. |

## Left out

- Random choices are inputs rather than drawn:
  - The shuffle at m.py:22: the points arrive already in the walk order.
  - `random.sample` and `random.randint` at m.py:58-61: one `Neighbor.Move` per iteration. Its positions are ignored when a chosen route is empty, as the source draws none then.
  - `random.random()` at m.py:79: `draws[k]` is the value that call would return in iteration k. The source consults it only when the neighbour is not strictly shorter.
- Floating point is not modelled; numbers are mathematical reals:
  - The square root is a distance parameter that `Geometry.IsEuclidean` characterises.
  - `math.exp` is a parameter `exp`.
  - Rounding, `float('inf')` and the temperature underflowing to zero after very many iterations are not represented.
- Annealing.SimulatedAnnealing: requires a positive cooling rate. The application only passes rates strictly between 0 and 1 (m.py:170). A zero rate would make the source divide by zero in a later iteration whose neighbour is not strictly shorter, and the model does not represent that error.
- Neighbor.NeighborSolution: requires two distinct trucks. With fewer than two trucks, the source's `random.sample` raises an error; the model has no error path for it.
- Construction.InitialSolution: requires at least one truck when there are points, because the source indexes `trucks[0]` and would raise an error otherwise. It also requires the fleet not to list the same truck object twice; aliasing of that kind is not modelled.
- Delivery points are values. Two points with equal coordinates and demand are not told apart, so the multiset statements count them together. The source keeps their object identity.
- The progress log at m.py:88-89, and the `iteration_offset` that only labels its lines, are left out. So is the `delivery_points` parameter of `simulated_annealing`, which the body never uses.
- The application class `VRPApp` is left out: the canvas, the input forms, the validation of the entered parameters and the drawing of routes.
