/** Trucks and the value view of a fleet.
    A `Truck` is an object whose two fields the engine updates in place: its
    `capacity` (after construction, the capacity still unused) and its
    `route`. A solution is a sequence of truck references, as a Python list of
    `Truck` objects is; `Routes` and `Capacities` read the fleet's current
    state as plain values, which is what the specifications talk about. */
module Fleet {
  import opened Geometry

  /** The ordered stops of one truck. */
  type Route = seq<DeliveryPoint>

  class Truck {
    var capacity: int
    var route: Route

    constructor (capacity: int)
      ensures this.capacity == capacity && route == []
    {
      this.capacity := capacity;
      route := [];
    }
  }

  /** The routes of the fleet, in truck order. */
  function Routes(trucks: seq<Truck>): (rs: seq<Route>)
    reads trucks
    ensures |rs| == |trucks|
    ensures forall i :: 0 <= i < |trucks| ==> rs[i] == trucks[i].route
  {
    if trucks == [] then [] else Routes(trucks[..|trucks| - 1]) + [trucks[|trucks| - 1].route]
  }

  /** The capacity fields of the fleet, in truck order. */
  function Capacities(trucks: seq<Truck>): (cs: seq<int>)
    reads trucks
    ensures |cs| == |trucks|
    ensures forall i :: 0 <= i < |trucks| ==> cs[i] == trucks[i].capacity
  {
    if trucks == [] then [] else Capacities(trucks[..|trucks| - 1]) + [trucks[|trucks| - 1].capacity]
  }

  /** No two positions of the fleet hold the same truck object. */
  ghost predicate Distinct(trucks: seq<Truck>)
  {
    forall i, j :: 0 <= i < j < |trucks| ==> trucks[i] != trucks[j]
  }

  /** The total demand of a route. */
  function Demand(r: Route): int
  {
    if r == [] then 0 else Demand(r[..|r| - 1]) + r[|r| - 1].demand
  }

  /** The routes of a fleet laid end to end, in truck order. */
  function Concat(rs: seq<Route>): seq<DeliveryPoint>
  {
    if rs == [] then [] else Concat(rs[..|rs| - 1]) + rs[|rs| - 1]
  }

  /** The number of stops of each truck. */
  function Shape(rs: seq<Route>): (lengths: seq<nat>)
    ensures |lengths| == |rs|
    ensures forall i :: 0 <= i < |rs| ==> lengths[i] == |rs[i]|
  {
    seq(|rs|, i requires 0 <= i < |rs| => |rs[i]|)
  }

  /** Appending a stop to truck `c`, when every later truck is empty, appends
      that stop to the concatenation of all routes. */
  lemma {:induction false} ConcatAppendAt(rs: seq<Route>, c: nat, p: DeliveryPoint)
    requires c < |rs|
    requires forall j :: c < j < |rs| ==> rs[j] == []
    ensures Concat(rs[c := rs[c] + [p]]) == Concat(rs) + [p]
    decreases |rs|
  {
    var rs' := rs[c := rs[c] + [p]];
    var n := |rs|;
    if c == n - 1 {
      assert rs'[..n - 1] == rs[..n - 1];
    } else {
      assert rs[n - 1] == [];
      assert rs'[..n - 1] == rs[..n - 1][c := rs[c] + [p]];
      ConcatAppendAt(rs[..n - 1], c, p);
    }
  }

  /** Replacing one route changes the multiset of all stops by exactly the
      stops of the old and the new route. */
  lemma {:induction false} ConcatUpdateMultiset(rs: seq<Route>, i: nat, r: Route)
    requires i < |rs|
    ensures multiset(Concat(rs[i := r])) == multiset(Concat(rs)) - multiset(rs[i]) + multiset(r)
    decreases |rs|
  {
    var n := |rs|;
    var rs' := rs[i := r];
    if i == n - 1 {
      assert rs'[..n - 1] == rs[..n - 1];
    } else {
      assert rs'[..n - 1] == rs[..n - 1][i := r];
      ConcatUpdateMultiset(rs[..n - 1], i, r);
      ConcatContains(rs[..n - 1], i);
    }
  }

  /** Every route's stops are among the stops of the concatenation. */
  lemma {:induction false} ConcatContains(rs: seq<Route>, i: nat)
    requires i < |rs|
    ensures multiset(rs[i]) <= multiset(Concat(rs))
    decreases |rs|
  {
    var n := |rs|;
    if i < n - 1 {
      ConcatContains(rs[..n - 1], i);
    }
  }
}
