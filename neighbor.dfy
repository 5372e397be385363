/** The neighbour move (`neighbor_solution`): copy every truck, then swap one
    stop between two distinct trucks. The random choices are a `Move` handed
    in by the caller: the two truck indices drawn without replacement, and a
    position within each of the two routes. */
module Neighbor {
  import opened Geometry
  import opened Fleet
  import opened Cost

  /** The random draws of one move. */
  datatype Move = Move(truck1: nat, truck2: nat, pos1: nat, pos2: nat)

  /** What the draws guarantee, given how many stops each truck has: two
      distinct existing trucks, and, when both have stops, a position inside
      each route. Positions are only drawn when both routes have stops. */
  predicate ValidMove(shape: seq<nat>, m: Move)
  {
    m.truck1 < |shape| && m.truck2 < |shape| && m.truck1 != m.truck2 &&
    (shape[m.truck1] > 0 && shape[m.truck2] > 0 ==> m.pos1 < shape[m.truck1] && m.pos2 < shape[m.truck2])
  }

  /** The routes after the move: if both chosen routes have stops, the stop
      at `pos1` of the first and the stop at `pos2` of the second change
      places; otherwise the routes are returned as they are. Every truck keeps
      its number of stops. */
  function SwapStops(rs: seq<Route>, m: Move): (rs': seq<Route>)
    requires ValidMove(Shape(rs), m)
    ensures Shape(rs') == Shape(rs)
  {
    var r1, r2 := rs[m.truck1], rs[m.truck2];
    if r1 == [] || r2 == [] then rs
    else rs[m.truck1 := r1[m.pos1 := r2[m.pos2]]][m.truck2 := r2[m.pos2 := r1[m.pos1]]]
  }

  /** The first half of `neighbor_solution`: one new truck per old truck,
      carrying the old truck's capacity field and a copy of its route. Nothing
      that existed before the call is modified. */
  method CopyTrucks(trucks: seq<Truck>) returns (newTrucks: seq<Truck>)
    ensures |newTrucks| == |trucks| && Distinct(newTrucks)
    ensures forall i :: 0 <= i < |newTrucks| ==> fresh(newTrucks[i])
    ensures Capacities(newTrucks) == Capacities(trucks)
    ensures Routes(newTrucks) == Routes(trucks)
  {
    newTrucks := [];
    for i := 0 to |trucks|
      invariant |newTrucks| == i && Distinct(newTrucks)
      invariant forall j :: 0 <= j < i ==> fresh(newTrucks[j])
      invariant forall j :: 0 <= j < i ==> newTrucks[j].capacity == trucks[j].capacity
    {
      var t := new Truck(trucks[i].capacity);
      newTrucks := newTrucks + [t];
    }
    for i := 0 to |trucks|
      invariant forall j :: 0 <= j < |trucks| ==> fresh(newTrucks[j])
      invariant forall j :: 0 <= j < i ==> newTrucks[j].route == trucks[j].route
      invariant forall j :: 0 <= j < |trucks| ==> newTrucks[j].capacity == trucks[j].capacity
    {
      newTrucks[i].route := trucks[i].route;
    }
  }

  /** The second half of `neighbor_solution`: if both chosen routes have
      stops, the two chosen stops trade places; only the two chosen trucks
      may change, and only their routes do. */
  method ExchangeStops(trucks: seq<Truck>, m: Move)
    requires Distinct(trucks) && ValidMove(Shape(Routes(trucks)), m)
    modifies trucks[m.truck1], trucks[m.truck2]
    ensures Routes(trucks) == SwapStops(old(Routes(trucks)), m)
    ensures Capacities(trucks) == old(Capacities(trucks))
  {
    var t1, t2 := trucks[m.truck1], trucks[m.truck2];
    if t1.route != [] && t2.route != [] {
      var a, b := t1.route[m.pos1], t2.route[m.pos2];
      t1.route := t1.route[m.pos1 := b];
      t2.route := t2.route[m.pos2 := a];
    }
  }

  /** `neighbor_solution`: copy the fleet, then exchange the chosen stops in
      the copies. The method has no `modifies` clause: the input trucks are
      left as they were. */
  method NeighborSolution(trucks: seq<Truck>, m: Move) returns (newTrucks: seq<Truck>)
    requires ValidMove(Shape(Routes(trucks)), m)
    ensures |newTrucks| == |trucks| && Distinct(newTrucks)
    ensures forall i :: 0 <= i < |newTrucks| ==> fresh(newTrucks[i])
    ensures Capacities(newTrucks) == old(Capacities(trucks))
    ensures Routes(newTrucks) == SwapStops(old(Routes(trucks)), m)
  {
    ghost var rs, cs := Routes(trucks), Capacities(trucks);
    newTrucks := CopyTrucks(trucks);
    assert Routes(newTrucks) == rs && Capacities(newTrucks) == cs;
    ExchangeStops(newTrucks, m);
  }

  /** The move swaps exactly two stops: if either chosen route is empty
      nothing changes; otherwise the two chosen stops trade places and every
      other position of every truck keeps its stop. */
  lemma SwapExchangesTwoStops(rs: seq<Route>, m: Move)
    requires ValidMove(Shape(rs), m)
    ensures var rs' := SwapStops(rs, m);
      (rs[m.truck1] == [] || rs[m.truck2] == [] ==> rs' == rs) &&
      (rs[m.truck1] != [] && rs[m.truck2] != [] ==>
        rs'[m.truck1][m.pos1] == rs[m.truck2][m.pos2] &&
        rs'[m.truck2][m.pos2] == rs[m.truck1][m.pos1] &&
        forall i, j ::
          0 <= i < |rs| && 0 <= j < |rs[i]| && (i, j) != (m.truck1, m.pos1) && (i, j) != (m.truck2, m.pos2)
          ==> rs'[i][j] == rs[i][j])
  {
  }

  /** The move keeps the stops: the multiset of all assigned points is the
      same before and after. */
  lemma SwapKeepsStops(rs: seq<Route>, m: Move)
    requires ValidMove(Shape(rs), m)
    ensures multiset(Concat(SwapStops(rs, m))) == multiset(Concat(rs))
  {
    var t1, t2 := m.truck1, m.truck2;
    var r1, r2 := rs[t1], rs[t2];
    if r1 != [] && r2 != [] {
      var a, b := r1[m.pos1], r2[m.pos2];
      var n1, n2 := r1[m.pos1 := b], r2[m.pos2 := a];
      var rs1 := rs[t1 := n1];
      ConcatUpdateMultiset(rs, t1, n1);
      ConcatUpdateMultiset(rs1, t2, n2);
      ConcatContains(rs, t1);
      ConcatContains(rs1, t2);
      ExchangeBalances(multiset(Concat(rs)), multiset(Concat(rs1)), multiset(Concat(SwapStops(rs, m))),
        multiset(r1), multiset(r2), multiset(n1), multiset(n2), a, b);
    }
  }

  /** Multiset bookkeeping of an exchange: taking out `r1` and putting in
      `n1`, then taking out `r2` and putting in `n2`, where `n1` is `r1` with
      one `a` traded for a `b` and `n2` is `r2` with that `b` traded back for
      `a`, returns to the start. */
  lemma ExchangeBalances<T>(m0: multiset<T>, m1: multiset<T>, m2: multiset<T>,
      r1: multiset<T>, r2: multiset<T>, n1: multiset<T>, n2: multiset<T>, a: T, b: T)
    requires r1 <= m0 && m1 == m0 - r1 + n1
    requires r2 <= m1 && m2 == m1 - r2 + n2
    requires a in r1 && n1 == r1 - multiset{a} + multiset{b}
    requires b in r2 && n2 == r2 - multiset{b} + multiset{a}
    ensures m2 == m0
  {
  }

  /** Repeating the same move undoes it. */
  lemma SwapIsInvolution(rs: seq<Route>, m: Move)
    requires ValidMove(Shape(rs), m)
    ensures SwapStops(SwapStops(rs, m), m) == rs
  {
    var rs' := SwapStops(rs, m);
    var t1, t2 := m.truck1, m.truck2;
    if rs[t1] != [] && rs[t2] != [] {
      assert rs'[t1][m.pos1 := rs'[t2][m.pos2]] == rs[t1];
      assert rs'[t2][m.pos2 := rs'[t1][m.pos1]] == rs[t2];
    }
  }

  /** The move changes the total cost only through the two trucks it
      touches. */
  lemma SwapCostChange(rs: seq<Route>, m: Move, depot: DeliveryPoint, dist: Metric)
    requires ValidMove(Shape(rs), m)
    ensures var rs' := SwapStops(rs, m);
      SolutionCost(rs', depot, dist) ==
        SolutionCost(rs, depot, dist)
        - RouteCost(depot, rs[m.truck1], dist) - RouteCost(depot, rs[m.truck2], dist)
        + RouteCost(depot, rs'[m.truck1], dist) + RouteCost(depot, rs'[m.truck2], dist)
  {
    var t1, t2 := m.truck1, m.truck2;
    var r1, r2 := rs[t1], rs[t2];
    if r1 != [] && r2 != [] {
      var n1, n2 := r1[m.pos1 := r2[m.pos2]], r2[m.pos2 := r1[m.pos1]];
      SolutionCostUpdate(rs, t1, n1, depot, dist);
      SolutionCostUpdate(rs[t1 := n1], t2, n2, depot, dist);
    }
  }

  /** When every truck has exactly one stop, the move hands each of the two
      chosen trucks the other's stop. */
  lemma SingleStopSwapTradesOwners(rs: seq<Route>, m: Move)
    requires ValidMove(Shape(rs), m)
    requires forall i :: 0 <= i < |rs| ==> |rs[i]| == 1
    ensures var rs' := SwapStops(rs, m);
      rs'[m.truck1] == [rs[m.truck2][0]] && rs'[m.truck2] == [rs[m.truck1][0]] &&
      forall i :: 0 <= i < |rs| && i != m.truck1 && i != m.truck2 ==> rs'[i] == rs[i]
  {
  }
}
