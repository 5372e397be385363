/** Cost of a solution (`total_distance`): for every truck with at least one
    stop, the distance from the depot to the first stop, between consecutive
    stops, and from the last stop back to the depot. Trucks with no stops add
    nothing. */
module Cost {
  import opened Geometry
  import opened Fleet

  /** The distances between consecutive stops of a route, summed in order.
      When none of those legs is negative, neither is the sum. */
  function Legs(r: Route, dist: Metric): (l: real)
    ensures (forall i :: 0 <= i < |r| - 1 ==> dist(r[i], r[i + 1]) >= 0.0) ==> l >= 0.0
    decreases |r|
  {
    if |r| < 2 then 0.0 else Legs(r[..|r| - 1], dist) + dist(r[|r| - 2], r[|r| - 1])
  }

  /** One truck's contribution to the total: nothing for a truck without
      stops, and never negative when no distance is. */
  function RouteCost(depot: DeliveryPoint, r: Route, dist: Metric): (c: real)
    ensures r == [] ==> c == 0.0
    ensures NonNegative(dist) ==> c >= 0.0
  {
    if r == [] then 0.0 else dist(depot, r[0]) + Legs(r, dist) + dist(r[|r| - 1], depot)
  }

  /** The sum of the trucks' contributions, in truck order. With distances
      never negative, no solution has a negative cost. */
  function SolutionCost(rs: seq<Route>, depot: DeliveryPoint, dist: Metric): (c: real)
    ensures NonNegative(dist) ==> c >= 0.0
    decreases |rs|
  {
    if rs == [] then 0.0 else SolutionCost(rs[..|rs| - 1], depot, dist) + RouteCost(depot, rs[|rs| - 1], dist)
  }

  /** `total_distance`: accumulate, truck by truck, the round trip of every
      truck whose route is not empty. */
  method TotalDistance(trucks: seq<Truck>, depot: DeliveryPoint, dist: Metric) returns (total: real)
    ensures total == SolutionCost(Routes(trucks), depot, dist)
  {
    ghost var rs := Routes(trucks);
    total := 0.0;
    for t := 0 to |trucks|
      invariant total == SolutionCost(rs[..t], depot, dist)
    {
      var route := trucks[t].route;
      assert rs[..t + 1][..t] == rs[..t];
      if route != [] {
        ghost var before := total;
        total := total + dist(depot, route[0]);
        for i := 0 to |route| - 1
          invariant total == before + dist(depot, route[0]) + Legs(route[..i + 1], dist)
        {
          assert route[..i + 2][..i + 1] == route[..i + 1];
          total := total + dist(route[i], route[i + 1]);
        }
        assert route[..|route|] == route;
        total := total + dist(route[|route| - 1], depot);
      }
    }
    assert rs[..|trucks|] == rs;
  }

  /** Trucks without stops cost nothing: a fleet whose routes are all empty
      costs 0. */
  lemma {:induction false} EmptyRoutesCostNothing(rs: seq<Route>, depot: DeliveryPoint, dist: Metric)
    requires forall j :: 0 <= j < |rs| ==> rs[j] == []
    ensures SolutionCost(rs, depot, dist) == 0.0
    decreases |rs|
  {
    if rs != [] {
      EmptyRoutesCostNothing(rs[..|rs| - 1], depot, dist);
    }
  }

  /** Starting a route from `p` adds the leg from `p` to its first stop. */
  lemma {:induction false} LegsPrepend(p: DeliveryPoint, r: Route, dist: Metric)
    requires r != []
    ensures Legs([p] + r, dist) == dist(p, r[0]) + Legs(r, dist)
    decreases |r|
  {
    var s := [p] + r;
    if |r| >= 2 {
      assert s[..|s| - 1] == [p] + r[..|r| - 1];
      LegsPrepend(p, r[..|r| - 1], dist);
    } else {
      assert s[..|s| - 1] == [p];
    }
  }

  /** The route cost is the length of the closed tour that leaves the depot,
      visits the stops in order and returns to the depot. */
  lemma RouteCostIsClosedTour(depot: DeliveryPoint, r: Route, dist: Metric)
    requires r != []
    ensures RouteCost(depot, r, dist) == Legs([depot] + r + [depot], dist)
  {
    var s := [depot] + r + [depot];
    assert s[..|s| - 1] == [depot] + r;
    LegsPrepend(depot, r, dist);
  }

  /** The cost of a fleet split in two is the sum of the two parts' costs. */
  lemma {:induction false} SolutionCostAppend(a: seq<Route>, b: seq<Route>, depot: DeliveryPoint, dist: Metric)
    ensures SolutionCost(a + b, depot, dist) == SolutionCost(a, depot, dist) + SolutionCost(b, depot, dist)
    decreases |b|
  {
    if b == [] {
      assert a + b == a;
    } else {
      var b' := b[..|b| - 1];
      assert (a + b)[..|a + b| - 1] == a + b';
      SolutionCostAppend(a, b', depot, dist);
    }
  }

  /** Replacing one truck's route changes the total by exactly the
      difference between the two routes' costs; no other truck's
      contribution moves. */
  lemma SolutionCostUpdate(rs: seq<Route>, i: nat, r: Route, depot: DeliveryPoint, dist: Metric)
    requires i < |rs|
    ensures SolutionCost(rs[i := r], depot, dist) ==
      SolutionCost(rs, depot, dist) - RouteCost(depot, rs[i], dist) + RouteCost(depot, r, dist)
  {
    var pre, post := rs[..i], rs[i + 1..];
    assert rs == pre + [rs[i]] + post;
    assert rs[i := r] == pre + [r] + post;
    SolutionCostAppend(pre + [rs[i]], post, depot, dist);
    SolutionCostAppend(pre, [rs[i]], depot, dist);
    SolutionCostAppend(pre + [r], post, depot, dist);
    SolutionCostAppend(pre, [r], depot, dist);
    assert [rs[i]][..0] == [] && [r][..0] == [];
  }
}
